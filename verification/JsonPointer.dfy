/**
 The user-name claim of an OpenID Connect login (iconnect-web/src/restful/oidc.rs): a dotted path is turned into
 a JSON Pointer (RFC 6901), which is evaluated on the claims.
 */
module JsonPointer {
  import opened Wrappers
  import opened Text

  // ---------------------------------------------------------------- building a pointer

  /** `~` becomes `~0` and `/` becomes `~1`. */
  function Escape(segment: string): string {
    if segment == "" then ""
    else
      var n := |segment| - 1;
      Escape(segment[..n]) + (if segment[n] == '~' then "~0" else if segment[n] == '/' then "~1" else [segment[n]])
  }

  /** Every segment behind a slash. */
  function Build(segments: seq<string>): string {
    if segments == [] then ""
    else
      var n := |segments| - 1;
      Build(segments[..n]) + "/" + Escape(segments[n])
  }

  function PointerOf(path: string): string {
    Build(Split(path, '.'))
  }

  method DotPathToJsonPointer(path: string) returns (pointer: string)
    ensures pointer == PointerOf(path)
  {
    var segments := Split(path, '.');
    pointer := "";
    var i := 0;
    while i < |segments|
      invariant 0 <= i <= |segments|
      invariant pointer == Build(segments[..i])
    {
      var segment := segments[i];
      ghost var before := pointer + "/";
      pointer := pointer + "/";
      var j := 0;
      while j < |segment|
        invariant 0 <= j <= |segment|
        invariant pointer == before + Escape(segment[..j])
      {
        assert segment[..j + 1][..j] == segment[..j];
        match segment[j] {
          case '~' => pointer := pointer + "~0";
          case '/' => pointer := pointer + "~1";
          case c => pointer := pointer + [c];
        }
        j := j + 1;
      }
      assert segment[..j] == segment;
      assert segments[..i + 1][..i] == segments[..i];
      i := i + 1;
    }
    assert segments[..i] == segments;
  }

  // ---------------------------------------------------------------- reading a pointer

  /** Replace every `~c` by one character, from left to right (section 4 of RFC 6901). */
  function Replace(s: string, c: char, to: char): string {
    if |s| < 2 then s
    else if s[0] == '~' && s[1] == c then [to] + Replace(s[2..], c, to)
    else [s[0]] + Replace(s[1..], c, to)
  }

  /** First `~1`, then `~0`. */
  function Unescape(token: string): string {
    Replace(Replace(token, '1', '/'), '0', '~')
  }

  function UnescapeAll(tokens: seq<string>): seq<string> {
    seq(|tokens|, i requires 0 <= i < |tokens| => Unescape(tokens[i]))
  }

  /** The reference tokens of a pointer (section 3 of RFC 6901); none when it is malformed. */
  function Tokens(pointer: string): Option<seq<string>> {
    if pointer == "" then Some([])
    else if pointer[0] != '/' then None
    else Some(UnescapeAll(Split(pointer, '/')[1..]))
  }

  // ---------------------------------------------------------------- unescaping undoes escaping

  /** A text in which only the tildes are escaped. */
  function EscapeTildes(s: string): string {
    if s == "" then "" else (if s[0] == '~' then "~0" else [s[0]]) + EscapeTildes(s[1..])
  }

  lemma {:induction false} EscapeFront(s: string)
    requires s != ""
    ensures Escape(s) == (if s[0] == '~' then "~0" else if s[0] == '/' then "~1" else [s[0]]) + Escape(s[1..])
  {
    var n := |s| - 1;
    if n > 0 {
      EscapeFront(s[..n]);
      assert s[..n][1..] == s[1..][..n - 1];
    } else {
      assert Escape(s[..n]) == "";
      assert Escape(s[1..]) == "";
    }
  }

  /** The first pass brings the slashes back and leaves the escaped tildes alone. */
  lemma {:induction false} SlashesBack(s: string)
    ensures Replace(Escape(s), '1', '/') == EscapeTildes(s)
  {
    if s != "" {
      EscapeFront(s);
      SlashesBack(s[1..]);
      var rest := Escape(s[1..]);
      if s[0] == '~' {
        ReplaceSkips('~', "0" + rest, '1', '/');
        ReplaceSkips('0', rest, '1', '/');
        assert Escape(s) == ['~'] + ("0" + rest);
        assert "0" + rest == ['0'] + rest;
        assert ['~'] + (['0'] + EscapeTildes(s[1..])) == "~0" + EscapeTildes(s[1..]);
      } else if s[0] == '/' {
        assert Escape(s)[2..] == rest;
      } else {
        ReplaceSkips(s[0], rest, '1', '/');
      }
    }
  }

  /** A character that does not start an escape is kept. */
  lemma ReplaceSkips(c: char, rest: string, digit: char, to: char)
    requires c != '~' || (rest != "" && rest[0] != digit)
    ensures Replace([c] + rest, digit, to) == [c] + Replace(rest, digit, to)
  {
    assert ([c] + rest)[1..] == rest;
  }

  lemma {:induction false} TildesBack(s: string)
    ensures Replace(EscapeTildes(s), '0', '~') == s
  {
    if s != "" {
      TildesBack(s[1..]);
      var rest := EscapeTildes(s[1..]);
      if s[0] == '~' {
        assert EscapeTildes(s)[2..] == rest;
      } else {
        ReplaceSkips(s[0], rest, '0', '~');
      }
      assert [s[0]] + s[1..] == s;
    }
  }

  lemma UnescapeEscape(s: string)
    ensures Unescape(Escape(s)) == s
  {
    SlashesBack(s);
    TildesBack(s);
  }

  lemma {:induction false} EscapeFree(s: string)
    ensures Free(Escape(s), '/')
  {
    if s != "" {
      EscapeFree(s[..|s| - 1]);
    }
  }

  // ---------------------------------------------------------------- tokens and segments

  function EscapeAll(segments: seq<string>): seq<string> {
    seq(|segments|, i requires 0 <= i < |segments| => Escape(segments[i]))
  }

  /** A pointer is the escaped segments joined with slashes behind an empty part. */
  lemma {:induction false} BuildJoins(segments: seq<string>)
    ensures Build(segments) == Join([""] + EscapeAll(segments), "/")
  {
    if segments != [] {
      var n := |segments| - 1;
      BuildJoins(segments[..n]);
      var front := [""] + EscapeAll(segments[..n]);
      JoinSnoc(front, Escape(segments[n]), "/");
      assert front + [Escape(segments[n])] == [""] + EscapeAll(segments);
    }
  }

  lemma {:induction false} JoinSnoc(parts: seq<string>, last: string, sep: string)
    requires parts != []
    ensures Join(parts + [last], sep) == Join(parts, sep) + sep + last
  {
    if |parts| > 1 {
      JoinSnoc(parts[1..], last, sep);
      assert (parts + [last])[1..] == parts[1..] + [last];
      assert parts[0] + sep + (Join(parts[1..], sep) + sep + last) == parts[0] + sep + Join(parts[1..], sep) + sep + last;
    } else {
      assert (parts + [last])[1..] == [last];
    }
  }

  lemma {:induction false} BuildStartsWithSlash(segments: seq<string>)
    requires segments != []
    ensures Build(segments) != "" && Build(segments)[0] == '/'
  {
    if |segments| > 1 {
      BuildStartsWithSlash(segments[..|segments| - 1]);
    } else {
      assert Build(segments[..0]) == "";
    }
  }

  /** The reference tokens of the encoded path are its segments. */
  lemma PointerNamesPath(path: string)
    ensures Tokens(PointerOf(path)) == Some(Split(path, '.'))
  {
    var segments := Split(path, '.');
    var parts := [""] + EscapeAll(segments);
    BuildJoins(segments);
    BuildStartsWithSlash(segments);
    forall i | 0 <= i < |parts| ensures Free(parts[i], '/') {
      if i > 0 { EscapeFree(segments[i - 1]); }
    }
    SplitJoin(parts, '/');
    assert parts[1..] == EscapeAll(segments);
    forall i | 0 <= i < |segments| ensures Unescape(EscapeAll(segments)[i]) == segments[i] {
      UnescapeEscape(segments[i]);
    }
    assert UnescapeAll(EscapeAll(segments)) == segments;
  }

  /** Different paths have different pointers. */
  lemma PointerIsInjective(a: string, b: string)
    requires PointerOf(a) == PointerOf(b)
    ensures a == b
  {
    PointerNamesPath(a);
    PointerNamesPath(b);
    JoinSplit(a, '.');
    JoinSplit(b, '.');
  }

  // ---------------------------------------------------------------- evaluating the claims

  datatype Json = Str(text: string) | Items(items: seq<Json>) | Fields(fields: map<string, Json>) | Other

  /** An index into an array: decimal, without a sign or leading zeros. */
  function Index(token: string): Option<nat> {
    if token == "" || !AllDigits(token) || (token[0] == '0' && |token| > 1) then None else Some(Value(token))
  }

  /** One step down: a field of an object or an element of an array. */
  function Child(v: Json, token: string): Option<Json> {
    match v
    case Fields(fields) => if token in fields then Some(fields[token]) else None
    case Items(items) =>
      var i := Index(token);
      if i.Some? && i.value < |items| then Some(items[i.value]) else None
    case _ => None
  }

  function Walk(v: Json, path: seq<string>): Option<Json> {
    if path == [] then Some(v)
    else match Child(v, path[0]) case Some(w) => Walk(w, path[1..]) case None => None
  }

  /** An array element is named by its decimal index and by nothing else. */
  lemma IndexIff(token: string, n: nat)
    ensures Index(token) == Some(n) <==> token == Dec(n)
  {
    ValueDec(n);
    DecShape(n);
    if token == Dec(n) && |token| > 1 {
      assert n != 0;
    }
    if Index(token) == Some(n) {
      var k := DigitsAreNumeral(token);
      assert k == 0;
    }
  }

  ghost predicate IsChild(v: Json, token: string, w: Json) {
    match v
    case Fields(fields) => token in fields && fields[token] == w
    case Items(items) => exists n: nat :: n < |items| && token == Dec(n) && items[n] == w
    case _ => false
  }

  lemma ChildIff(v: Json, token: string, w: Json)
    ensures Child(v, token) == Some(w) <==> IsChild(v, token, w)
  {
    if v.Items? {
      if Index(token).Some? {
        IndexIff(token, Index(token).value);
      }
      if n: nat :| n < |v.items| && token == Dec(n) && v.items[n] == w {
        IndexIff(token, n);
      }
    }
  }

  /** A chain of values leads from one to another, each the child of the one before it. */
  ghost predicate Leads(chain: seq<Json>, v: Json, path: seq<string>, w: Json) {
    && |chain| == |path| + 1 && chain[0] == v && chain[|path|] == w
    && forall i :: 0 <= i < |path| ==> IsChild(chain[i], path[i], chain[i + 1])
  }

  lemma {:induction false} WalkLeads(v: Json, path: seq<string>) returns (chain: seq<Json>)
    requires Walk(v, path).Some?
    ensures Leads(chain, v, path, Walk(v, path).value)
  {
    chain := [v];
    if path != [] {
      var w := Child(v, path[0]).value;
      ChildIff(v, path[0], w);
      var rest := WalkLeads(w, path[1..]);
      chain := [v] + rest;
    }
  }

  lemma {:induction false} LeadsWalks(chain: seq<Json>, v: Json, path: seq<string>, w: Json)
    requires Leads(chain, v, path, w)
    ensures Walk(v, path) == Some(w)
  {
    if path != [] {
      assert IsChild(chain[0], path[0], chain[1]);
      ChildIff(v, path[0], chain[1]);
      LeadsWalks(chain[1..], chain[1], path[1..], w);
    }
  }

  function Evaluate(v: Json, pointer: string): Option<Json> {
    match Tokens(pointer) case Some(tokens) => Walk(v, tokens) case None => None
  }

  /** The user name: the text at the claim's path, unless it is empty. */
  function UserName(claims: Json, path: string): Option<string> {
    match Evaluate(claims, PointerOf(path))
    case Some(Str(s)) => if s != "" then Some(s) else None
    case _ => None
  }

  /** The login uses exactly the non-empty text that the dotted path leads to, segment by segment. */
  lemma UserNameIff(claims: Json, path: string, name: string)
    ensures UserName(claims, path) == Some(name) <==> name != "" && exists chain :: Leads(chain, claims, Split(path, '.'), Str(name))
  {
    PointerNamesPath(path);
    var segments := Split(path, '.');
    if Walk(claims, segments).Some? {
      var chain := WalkLeads(claims, segments);
    }
    if chain :| Leads(chain, claims, segments, Str(name)) {
      LeadsWalks(chain, claims, segments, Str(name));
    }
  }
}
