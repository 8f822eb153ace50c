/** Splitting, joining and decimal numbers: the parts of the text formats that several modules share. */
module Text {
  import opened Wrappers

  // ---------------------------------------------------------------- split and join

  /** Split at every occurrence of `c`; there is always at least one part. */
  function Split(s: string, c: char): (parts: seq<string>)
    ensures |parts| >= 1
  {
    if s == "" then [""]
    else
      var rest := Split(s[1..], c);
      if s[0] == c then [""] + rest else [[s[0]] + rest[0]] + rest[1..]
  }

  function Join(parts: seq<string>, sep: string): string {
    if parts == [] then ""
    else if |parts| == 1 then parts[0]
    else parts[0] + sep + Join(parts[1..], sep)
  }

  predicate Free(s: string, c: char) {
    forall i :: 0 <= i < |s| ==> s[i] != c
  }

  lemma {:induction false} SplitFree(s: string, c: char)
    requires Free(s, c)
    ensures Split(s, c) == [s]
  {
    if s != "" {
      SplitFree(s[1..], c);
      assert [s[0]] + s[1..] == s;
    }
  }

  /** A part without separators followed by a separator is split off. */
  lemma SplitAt(a: string, b: string, c: char)
    requires Free(a, c)
    ensures Split(a + [c] + b, c) == [a] + Split(b, c)
  {
    SplitBetween(a, b, c);
    SplitFree(a, c);
  }

  /** A separator splits a text into the parts before it and the parts after it. */
  lemma {:induction false} SplitBetween(a: string, b: string, c: char)
    ensures Split(a + [c] + b, c) == Split(a, c) + Split(b, c)
  {
    var s := a + [c] + b;
    if a == "" {
      assert s[1..] == b;
    } else {
      assert s[1..] == a[1..] + [c] + b;
      SplitBetween(a[1..], b, c);
    }
  }

  /** Splitting undoes joining parts that hold no separator. */
  lemma {:induction false} SplitJoin(parts: seq<string>, c: char)
    requires parts != [] && forall i :: 0 <= i < |parts| ==> Free(parts[i], c)
    ensures Split(Join(parts, [c]), c) == parts
  {
    if |parts| == 1 {
      SplitFree(parts[0], c);
    } else {
      SplitAt(parts[0], Join(parts[1..], [c]), c);
      SplitJoin(parts[1..], c);
    }
  }

  /** Joining undoes splitting, and no part holds the separator. */
  lemma {:induction false} JoinSplit(s: string, c: char)
    ensures Join(Split(s, c), [c]) == s
    ensures forall i :: 0 <= i < |Split(s, c)| ==> Free(Split(s, c)[i], c)
  {
    if s != "" {
      JoinSplit(s[1..], c);
      var rest := Split(s[1..], c);
      var parts := Split(s, c);
      if s[0] == c {
        assert parts[1..] == rest;
        assert "" + [c] + s[1..] == s;
      } else if |rest| == 1 {
        assert [s[0]] + s[1..] == s;
      } else {
        assert parts[1..] == rest[1..];
        assert [s[0]] + s[1..] == s;
        assert ([s[0]] + rest[0]) + [c] + Join(rest[1..], [c]) == [s[0]] + (rest[0] + [c] + Join(rest[1..], [c]));
      }
    }
  }

  // ---------------------------------------------------------------- decimal numbers

  predicate IsDigit(c: char) {
    '0' <= c <= '9'
  }

  predicate AllDigits(s: string) {
    forall i :: 0 <= i < |s| ==> IsDigit(s[i])
  }

  function DigitOf(n: nat): char
    requires n < 10
  {
    '0' + n as char
  }

  /** The decimal text of a number, without leading zeros. */
  function Dec(n: nat): (s: string)
    ensures s != "" && AllDigits(s)
  {
    if n < 10 then [DigitOf(n)] else Dec(n / 10) + [DigitOf(n % 10)]
  }

  function Value(s: string): nat
    requires AllDigits(s)
  {
    if s == "" then 0 else 10 * Value(s[..|s| - 1]) + (s[|s| - 1] as int - '0' as int)
  }

  lemma {:induction false} ValueDec(n: nat)
    ensures Value(Dec(n)) == n
  {
    if n >= 10 {
      ValueDec(n / 10);
      var s := Dec(n);
      assert s[..|s| - 1] == Dec(n / 10);
    } else {
      var s := Dec(n);
      assert s[..|s| - 1] == "";
    }
  }

  /** A printed number has no leading zero unless it is zero, and no more digits than its size allows. */
  lemma {:induction false} DecShape(n: nat)
    ensures n != 0 ==> Dec(n)[0] != '0'
    ensures n == 0 ==> Dec(n) == "0"
    ensures n < 10 ==> |Dec(n)| == 1
    ensures 10 <= n < 100 ==> |Dec(n)| == 2
    ensures 100 <= n < 1000 ==> |Dec(n)| == 3
  {
    if n >= 10 {
      DecShape(n / 10);
      assert Dec(n)[0] == Dec(n / 10)[0];
    }
  }

  /** Parse an unsigned number up to `max`, as the standard integer parsers do: a leading plus is allowed. */
  function ParseUnsigned(s: string, max: nat): Option<nat> {
    var digits := if s != "" && s[0] == '+' then s[1..] else s;
    if digits == "" || !AllDigits(digits) then None
    else if Value(digits) <= max then Some(Value(digits)) else None
  }

  lemma ParseDec(n: nat, max: nat)
    ensures ParseUnsigned(Dec(n), max) == if n <= max then Some(n) else None
  {
    ValueDec(n);
    assert IsDigit(Dec(n)[0]);
  }

  function Zeros(k: nat): string {
    seq(k, _ => '0')
  }

  lemma {:induction false} ValueZeros(k: nat, digits: string)
    requires AllDigits(digits)
    ensures AllDigits(Zeros(k) + digits) && Value(Zeros(k) + digits) == Value(digits)
  {
    var s := Zeros(k) + digits;
    if digits != "" {
      assert s[..|s| - 1] == Zeros(k) + digits[..|digits| - 1];
      ValueZeros(k, digits[..|digits| - 1]);
    } else if k > 0 {
      assert s[..|s| - 1] == Zeros(k - 1) + "";
      ValueZeros(k - 1, "");
    }
  }

  lemma DecStep(n: nat, c: char)
    requires IsDigit(c)
    ensures n > 0 ==> Dec(10 * n + (c as int - '0' as int)) == Dec(n) + [c]
    ensures Dec(c as int - '0' as int) == [c]
  {
    var d := c as int - '0' as int;
    assert DigitOf(d) == c;
    assert (10 * n + d) / 10 == n && (10 * n + d) % 10 == d;
  }

  /** What a further digit makes of zeros and a number. */
  lemma NumeralGrows(k: nat, v: nat, c: char)
    requires IsDigit(c)
    ensures Zeros(k) + Dec(v) + [c] == Zeros(if v == 0 then k + 1 else k) + Dec(10 * v + (c as int - '0' as int))
  {
    DecStep(v, c);
    if v == 0 {
      assert Zeros(k) + "0" == Zeros(k + 1);
    } else {
      assert Zeros(k) + Dec(v) + [c] == Zeros(k) + (Dec(v) + [c]);
    }
  }

  /** Digits are some zeros and the number without them. */
  lemma {:induction false} DigitsAreNumeral(s: string) returns (k: nat)
    requires s != "" && AllDigits(s)
    ensures s == Zeros(k) + Dec(Value(s))
  {
    var n := |s| - 1;
    var front := s[..n];
    assert IsDigit(s[n]) && s == front + [s[n]];
    k := 0;
    if n == 0 {
      DecStep(0, s[n]);
      assert Zeros(0) + [s[n]] == s;
    } else {
      k := DigitsAreNumeral(front);
      NumeralGrows(k, Value(front), s[n]);
      k := if Value(front) == 0 then k + 1 else k;
    }
  }

  /** How a number can be written: its decimal text, after a plus sign or not, and after some zeros. */
  predicate Writes(s: string, plus: bool, k: nat, n: nat) {
    s == (if plus then "+" else "") + (Zeros(k) + Dec(n))
  }

  lemma WrittenIsRead(s: string, plus: bool, k: nat, n: nat, max: nat)
    requires Writes(s, plus, k, n) && n <= max
    ensures ParseUnsigned(s, max) == Some(n)
  {
    var digits := Zeros(k) + Dec(n);
    ValueZeros(k, Dec(n));
    ValueDec(n);
    assert IsDigit(digits[0]);
    if plus {
      assert s[1..] == digits;
    } else {
      assert s == digits;
    }
  }

  lemma ReadIsWritten(s: string, max: nat) returns (plus: bool, k: nat)
    requires ParseUnsigned(s, max).Some?
    ensures ParseUnsigned(s, max).value <= max && Writes(s, plus, k, ParseUnsigned(s, max).value)
  {
    plus := s[0] == '+';
    k := DigitsAreNumeral(if plus then s[1..] else s);
  }

  ghost predicate Numeral(s: string, n: nat) {
    exists plus: bool, k: nat :: Writes(s, plus, k, n)
  }

  /** A number is read exactly from the texts that write it, and only up to the maximum. */
  lemma ParseUnsignedIff(s: string, max: nat, n: nat)
    ensures ParseUnsigned(s, max) == Some(n) <==> Numeral(s, n) && n <= max
  {
    if Numeral(s, n) && n <= max {
      var plus: bool, k: nat :| Writes(s, plus, k, n);
      WrittenIsRead(s, plus, k, n, max);
    }
    if ParseUnsigned(s, max) == Some(n) {
      var plus, k := ReadIsWritten(s, max);
    }
  }

  lemma UnsignedFree(s: string, max: nat, c: char)
    requires ParseUnsigned(s, max).Some? && !IsDigit(c) && c != '+'
    ensures Free(s, c)
  {
    if s[0] == '+' {
      assert s == "+" + s[1..];
    }
  }

  /** A number in text holds digits, and a plus sign perhaps. */
  lemma NumeralFree(t: string, n: nat, c: char)
    requires Numeral(t, n) && !IsDigit(c) && c != '+'
    ensures Free(t, c)
  {
    ParseUnsignedIff(t, n, n);
    UnsignedFree(t, n, c);
  }

  /** Digits and signs never hold a separator. */
  lemma DecFree(n: nat, c: char)
    requires !IsDigit(c)
    ensures Free(Dec(n), c)
  {
    var s := Dec(n);
    assert forall i :: 0 <= i < |s| ==> IsDigit(s[i]);
  }

  // ---------------------------------------------------------------- white space

  /** The characters with the Unicode White_Space property. */
  predicate IsSpace(c: char) {
    var n := c as int;
    0x09 <= n <= 0x0D || n == 0x20 || n == 0x85 || n == 0xA0 || n == 0x1680 || 0x2000 <= n <= 0x200A
    || n == 0x2028 || n == 0x2029 || n == 0x202F || n == 0x205F || n == 0x3000
  }

  predicate NoSpace(s: string) {
    forall i :: 0 <= i < |s| ==> !IsSpace(s[i])
  }

  function TrimStart(s: string): string {
    if s != "" && IsSpace(s[0]) then TrimStart(s[1..]) else s
  }

  function TrimEnd(s: string): string {
    if s != "" && IsSpace(s[|s| - 1]) then TrimEnd(s[..|s| - 1]) else s
  }

  function Trim(s: string): string {
    TrimEnd(TrimStart(s))
  }

  lemma TrimFixes(s: string)
    requires NoSpace(s)
    ensures Trim(s) == s
  {
  }

  predicate AllSpaces(s: string) {
    forall i :: 0 <= i < |s| ==> IsSpace(s[i])
  }

  /** Empty, or without white space at either end. */
  predicate Trimmed(s: string) {
    s != "" ==> !IsSpace(s[0]) && !IsSpace(s[|s| - 1])
  }

  lemma {:induction false} TrimStartIs(a: string, core: string)
    requires AllSpaces(a) && (core != "" ==> !IsSpace(core[0]))
    ensures TrimStart(a + core) == core
  {
    if a == "" {
      assert a + core == core;
    } else {
      assert (a + core)[1..] == a[1..] + core;
      TrimStartIs(a[1..], core);
    }
  }

  lemma {:induction false} TrimEndIs(core: string, b: string)
    requires AllSpaces(b) && (core != "" ==> !IsSpace(core[|core| - 1]))
    ensures TrimEnd(core + b) == core
  {
    if b == "" {
      assert core + b == core;
    } else {
      var s := core + b;
      assert s[..|s| - 1] == core + b[..|b| - 1];
      TrimEndIs(core, b[..|b| - 1]);
    }
  }

  /** Trimming takes off the white space around a text, and nothing else. */
  lemma TrimIs(a: string, core: string, b: string)
    requires AllSpaces(a) && AllSpaces(b) && Trimmed(core)
    ensures Trim(a + core + b) == core
  {
    if core == "" {
      TrimStartIs(a + b, "");
      assert a + core + b == a + b + "";
    } else {
      TrimStartIs(a, core + b);
      assert a + core + b == a + (core + b);
      TrimEndIs(core, b);
    }
  }

  /** A text with white space, or nothing, before and after it. */
  ghost predicate Surrounds(s: string, core: string) {
    exists a, b :: AllSpaces(a) && AllSpaces(b) && s == a + core + b
  }

  lemma {:induction false} TrimStartLeaves(s: string) returns (a: string)
    ensures AllSpaces(a) && s == a + TrimStart(s) && (TrimStart(s) != "" ==> !IsSpace(TrimStart(s)[0]))
  {
    a := "";
    if s != "" && IsSpace(s[0]) {
      a := TrimStartLeaves(s[1..]);
      assert s == [s[0]] + (a + TrimStart(s[1..]));
      a := [s[0]] + a;
    }
  }

  lemma {:induction false} TrimEndLeaves(s: string) returns (b: string)
    ensures AllSpaces(b) && s == TrimEnd(s) + b && (TrimEnd(s) != "" ==> !IsSpace(TrimEnd(s)[|TrimEnd(s)| - 1]))
  {
    b := "";
    if s != "" && IsSpace(s[|s| - 1]) {
      var n := |s| - 1;
      b := TrimEndLeaves(s[..n]);
      assert s == TrimEnd(s[..n]) + (b + [s[n]]);
      b := b + [s[n]];
    }
  }

  /** Trimming finds the one text without white space at its ends that white space surrounds. */
  lemma TrimIff(s: string, core: string)
    ensures Trim(s) == core <==> Surrounds(s, core) && Trimmed(core)
  {
    var a := TrimStartLeaves(s);
    var b := TrimEndLeaves(TrimStart(s));
    assert s == a + Trim(s) + b;
    if Trim(s) != "" {
      assert Trim(s)[0] == TrimStart(s)[0];
    }
    assert Surrounds(s, Trim(s)) && Trimmed(Trim(s));
    if Surrounds(s, core) && Trimmed(core) {
      var x, y :| AllSpaces(x) && AllSpaces(y) && s == x + core + y;
      TrimIs(x, core, y);
    }
  }

  /** The maximal runs of characters that are not white space. */
  function SplitSpaces(s: string): seq<string> {
    if s == "" then []
    else if IsSpace(s[0]) then SplitSpaces(s[1..])
    else
      var rest := SplitSpaces(s[1..]);
      if |s| == 1 || IsSpace(s[1]) then [[s[0]]] + rest
      else if rest == [] then [[s[0]]] else [[s[0]] + rest[0]] + rest[1..]
  }

  predicate Words(parts: seq<string>) {
    forall i :: 0 <= i < |parts| ==> parts[i] != "" && NoSpace(parts[i])
  }

  lemma {:induction false} SplitSpacesWords(s: string)
    ensures Words(SplitSpaces(s))
    ensures s != "" && !IsSpace(s[0]) ==> SplitSpaces(s) != []
  {
    if s != "" {
      SplitSpacesWords(s[1..]);
    }
  }

  /** Words come back from a text that joins them with single spaces. */
  lemma {:induction false} SplitSpacesJoin(parts: seq<string>)
    requires Words(parts)
    ensures SplitSpaces(Join(parts, " ")) == parts
  {
    if parts != [] {
      if |parts| == 1 {
        SplitSpacesWord(parts[0], "");
        assert parts[0] + "" == parts[0];
      } else {
        var rest := Join(parts[1..], " ");
        SplitSpacesJoin(parts[1..]);
        SplitSpacesWord(parts[0], " " + rest);
        assert (" " + rest)[1..] == rest;
        assert parts[0] + (" " + rest) == parts[0] + " " + rest;
        assert [parts[0]] + parts[1..] == parts;
      }
    }
  }

  /** A word followed by white space or nothing is split off. */
  lemma {:induction false} SplitSpacesWord(word: string, rest: string)
    requires word != "" && NoSpace(word)
    requires rest == "" || IsSpace(rest[0])
    ensures SplitSpaces(word + rest) == [word] + SplitSpaces(rest)
  {
    var s := word + rest;
    assert s[1..] == word[1..] + rest;
    if |word| == 1 {
      assert s[1..] == rest;
      assert [s[0]] == word;
    } else {
      SplitSpacesWord(word[1..], rest);
      assert [word[0]] + word[1..] == word;
    }
  }

  /** White space before a text is passed over, however much there is. */
  lemma {:induction false} SplitSpacesSkips(spaces: string, rest: string)
    requires AllSpaces(spaces)
    ensures SplitSpaces(spaces + rest) == SplitSpaces(rest)
  {
    if spaces == "" {
      assert spaces + rest == rest;
    } else {
      assert (spaces + rest)[1..] == spaces[1..] + rest;
      SplitSpacesSkips(spaces[1..], rest);
    }
  }

  // ---------------------------------------------------------------- lists of texts

  /** Parse texts in order, giving up at the first bad one; with `skip`, empty texts are passed over. */
  function ParseAll<T>(parse: string -> Option<T>, texts: seq<string>, skip: bool): Option<seq<T>> {
    if texts == [] then Some([])
    else
      var n := |texts| - 1;
      match ParseAll(parse, texts[..n], skip)
      case None => None
      case Some(xs) =>
        if skip && texts[n] == "" then Some(xs)
        else match parse(texts[n]) case None => None case Some(x) => Some(xs + [x])
  }

  /** The method behind every list of the flat form. */
  method ParseList<T>(parse: string -> Option<T>, texts: seq<string>, skip: bool) returns (r: Option<seq<T>>)
    ensures r == ParseAll(parse, texts, skip)
  {
    var xs: seq<T> := [];
    var i := 0;
    while i < |texts|
      invariant 0 <= i <= |texts|
      invariant ParseAll(parse, texts[..i], skip) == Some(xs)
    {
      assert texts[..i + 1][..i] == texts[..i];
      if !(skip && texts[i] == "") {
        var x := parse(texts[i]);
        if x.None? {
          ParseAllFails(parse, texts, skip, i);
          return None;
        }
        xs := xs + [x.value];
      }
      i := i + 1;
    }
    assert texts[..i] == texts;
    return Some(xs);
  }

  lemma {:induction false} ParseAllFails<T>(parse: string -> Option<T>, texts: seq<string>, skip: bool, i: nat)
    requires i < |texts| && ParseAll(parse, texts[..i + 1], skip).None?
    ensures ParseAll(parse, texts, skip).None?
    decreases |texts| - i
  {
    if i + 1 == |texts| {
      assert texts[..i + 1] == texts;
    } else {
      assert texts[..i + 2][..i + 1] == texts[..i + 1];
      ParseAllFails(parse, texts, skip, i + 1);
    }
  }

  /** A list whose texts parse one by one parses as a whole. */
  lemma {:induction false} ParseAllIs<T>(parse: string -> Option<T>, texts: seq<string>, xs: seq<T>, skip: bool)
    requires |texts| == |xs|
    requires forall i :: 0 <= i < |xs| ==> parse(texts[i]) == Some(xs[i])
    requires skip ==> forall i :: 0 <= i < |xs| ==> texts[i] != ""
    ensures ParseAll(parse, texts, skip) == Some(xs)
  {
    if texts != [] {
      var n := |texts| - 1;
      ParseAllIs(parse, texts[..n], xs[..n], skip);
      assert xs[..n] + [xs[n]] == xs;
    }
  }

  /** A list parses exactly when each of its texts does, and the values follow the texts one by one. */
  lemma {:induction false} ParseAllIff<T>(parse: string -> Option<T>, texts: seq<string>)
    ensures ParseAll(parse, texts, false).Some? <==> forall i :: 0 <= i < |texts| ==> parse(texts[i]).Some?
    ensures ParseAll(parse, texts, false).Some? ==>
              && |ParseAll(parse, texts, false).value| == |texts|
              && forall i :: 0 <= i < |texts| ==> parse(texts[i]) == Some(ParseAll(parse, texts, false).value[i])
  {
    if texts != [] {
      var n := |texts| - 1;
      ParseAllIff(parse, texts[..n]);
      assert forall i :: 0 <= i < n ==> texts[..n][i] == texts[i];
    }
  }

  /** The texts that are not empty, in order. */
  function NonEmptyTexts(texts: seq<string>): seq<string> {
    if texts == [] then []
    else
      var n := |texts| - 1;
      NonEmptyTexts(texts[..n]) + if texts[n] == "" then [] else [texts[n]]
  }

  /** Every text reads as the value in its place. */
  ghost predicate Reads<T>(parse: string -> Option<T>, texts: seq<string>, xs: seq<T>) {
    |xs| == |texts| && forall i :: 0 <= i < |texts| ==> parse(texts[i]) == Some(xs[i])
  }

  /** A list is read exactly when each of its texts is, empty ones being passed over where that is allowed. */
  lemma {:induction false} ParseAllReads<T>(parse: string -> Option<T>, texts: seq<string>, skip: bool, xs: seq<T>)
    ensures ParseAll(parse, texts, skip) == Some(xs) <==> Reads(parse, if skip then NonEmptyTexts(texts) else texts, xs)
  {
    if texts != [] {
      var n := |texts| - 1;
      var kept := if skip then NonEmptyTexts(texts) else texts;
      var before := if skip then NonEmptyTexts(texts[..n]) else texts[..n];
      if skip && texts[n] == "" {
        assert kept == before;
        ParseAllReads(parse, texts[..n], skip, xs);
      } else {
        assert kept == before + [texts[n]];
        if xs != [] {
          var m := |xs| - 1;
          ParseAllReads(parse, texts[..n], skip, xs[..m]);
          assert xs == xs[..m] + [xs[m]];
          assert Reads(parse, kept, xs) <==> Reads(parse, before, xs[..m]) && parse(texts[n]) == Some(xs[m]);
        }
      }
    }
  }
}
