/**
 `parse_port_list` (iconnectd/src/cli.rs): a comma-separated list of ports and port ranges, turned into
 canonical texts.
 */
module PortList {
  import opened Wrappers
  import opened Text
  import opened Addresses

  datatype Entry = Single(port: Port) | Span(first: Port, last: Port)

  predicate Proper(e: Entry) {
    e.Span? ==> e.first <= e.last
  }

  function PrintEntry(e: Entry): string {
    match e
    case Single(p) => Dec(p)
    case Span(a, b) => Dec(a) + "-" + Dec(b)
  }

  /** Read one item of the list, white space around it removed. */
  function ParseSpec(item: string): Option<Entry> {
    var spec := Trim(item);
    var parts := Split(spec, '-');
    if |parts| == 1 then
      match ParseUnsigned(spec, MAX_PORT) case Some(p) => Some(Single(p)) case None => None
    else if |parts| == 2 then
      match (ParseUnsigned(parts[0], MAX_PORT), ParseUnsigned(parts[1], MAX_PORT))
      case (Some(a), Some(b)) => if a <= b then Some(Span(a, b)) else None
      case _ => None
    else None
  }

  function PrintEntries(es: seq<Entry>): seq<string> {
    seq(|es|, i requires 0 <= i < |es| => PrintEntry(es[i]))
  }

  /** The entries of a list, or nothing when an item cannot be read. */
  function ReadList(text: string): Option<seq<Entry>> {
    ParseAll(ParseSpec, Split(text, ','), false)
  }

  method ParsePortList(text: string) returns (ports: Option<seq<string>>)
    ensures ports == match ReadList(text) case Some(es) => Some(PrintEntries(es)) case None => None
  {
    var items := Split(text, ',');
    var texts: seq<string> := [];
    ghost var es: seq<Entry> := [];
    var i := 0;
    while i < |items|
      invariant 0 <= i <= |items|
      invariant ParseAll(ParseSpec, items[..i], false) == Some(es) && texts == PrintEntries(es)
    {
      assert items[..i + 1][..i] == items[..i];
      var e := ParseSpec(items[i]);
      if e.None? {
        ParseAllFails(ParseSpec, items, false, i);
        return None;
      }
      assert PrintEntries(es + [e.value]) == PrintEntries(es) + [PrintEntry(e.value)];
      texts, es := texts + [PrintEntry(e.value)], es + [e.value];
      i := i + 1;
    }
    assert items[..i] == items;
    return Some(texts);
  }

  // ---------------------------------------------------------------- the grammar

  /** A numeral, or two numerals in order with a hyphen between them. */
  ghost predicate SpecText(s: string, e: Entry) {
    match e
    case Single(p) => Numeral(s, p)
    case Span(a, b) => a <= b && exists x, y :: s == x + "-" + y && Numeral(x, a) && Numeral(y, b)
  }

  /** What an item means: the entry whose text it holds, with white space around it or not. */
  ghost predicate Means(item: string, e: Entry) {
    exists s :: Surrounds(item, s) && SpecText(s, e)
  }

  lemma NumeralPlain(s: string, n: nat)
    requires Numeral(s, n)
    ensures s != "" && NoSpace(s) && Free(s, '-')
  {
    NumeralFree(s, n, '-');
    forall i | 0 <= i < |s| ensures !IsSpace(s[i]) {
      if IsSpace(s[i]) {
        NumeralFree(s, n, s[i]);
      }
    }
    ParseUnsignedIff(s, n, n);
  }

  lemma SpecIsTrimmed(s: string, e: Entry)
    requires SpecText(s, e)
    ensures Trimmed(s)
  {
    if e.Single? {
      NumeralPlain(s, e.port);
    } else {
      var x, y :| s == x + "-" + y && Numeral(x, e.first) && Numeral(y, e.last);
      NumeralPlain(x, e.first);
      NumeralPlain(y, e.last);
    }
  }

  lemma MeansIff(item: string, e: Entry)
    ensures Means(item, e) <==> SpecText(Trim(item), e)
  {
    TrimIff(item, Trim(item));
    if Means(item, e) {
      var s :| Surrounds(item, s) && SpecText(s, e);
      SpecIsTrimmed(s, e);
      TrimIff(item, s);
    }
  }

  ghost predicate Meaningless(item: string) {
    forall e :: !Means(item, e)
  }

  lemma MeaninglessIff(item: string)
    ensures ParseSpec(item).None? <==> Meaningless(item)
  {
    forall e ensures ParseSpec(item) == Some(e) <==> Means(item, e) {
      SpecGrammarIff(item, e);
    }
    if ParseSpec(item).Some? {
      assert Means(item, ParseSpec(item).value);
    }
  }

  ghost predicate AllMeaningful(items: seq<string>) {
    forall i :: 0 <= i < |items| ==> !Meaningless(items[i])
  }

  /** A list is accepted exactly when every item means something. */
  lemma AcceptedIff(text: string)
    ensures ReadList(text).Some? <==> AllMeaningful(Split(text, ','))
  {
    var items := Split(text, ',');
    ItemsAcceptedIff(items);
  }

  lemma ItemsAcceptedIff(items: seq<string>)
    ensures ParseAll(ParseSpec, items, false).Some? <==> AllMeaningful(items)
  {
    ParseAllIff(ParseSpec, items);
    forall i | 0 <= i < |items| ensures ParseSpec(items[i]).Some? <==> !Meaningless(items[i]) {
      MeaninglessIff(items[i]);
    }
  }

  lemma TwoParts(s: string, x: string, y: string)
    requires Free(x, '-') && Free(y, '-') && s == x + "-" + y
    ensures Split(s, '-') == [x, y]
  {
    SplitAt(x, y, '-');
    SplitFree(y, '-');
  }

  lemma MeansParses(item: string, e: Entry)
    requires SpecText(Trim(item), e)
    ensures ParseSpec(item) == Some(e)
  {
    var spec := Trim(item);
    if e.Single? {
      NumeralPlain(spec, e.port);
      SplitFree(spec, '-');
      ParseUnsignedIff(spec, MAX_PORT, e.port);
    } else {
      var x, y :| spec == x + "-" + y && Numeral(x, e.first) && Numeral(y, e.last);
      NumeralPlain(x, e.first);
      NumeralPlain(y, e.last);
      TwoParts(spec, x, y);
      ParseUnsignedIff(x, MAX_PORT, e.first);
      ParseUnsignedIff(y, MAX_PORT, e.last);
    }
  }

  lemma ParsesMeans(item: string, e: Entry)
    requires ParseSpec(item) == Some(e)
    ensures SpecText(Trim(item), e)
  {
    var spec := Trim(item);
    if e.Span? {
      var parts := Split(spec, '-');
      JoinSplit(spec, '-');
      assert parts[1..] == [parts[1]];
      assert spec == parts[0] + "-" + parts[1];
      ParseUnsignedIff(parts[0], MAX_PORT, e.first);
      ParseUnsignedIff(parts[1], MAX_PORT, e.last);
    } else {
      ParseUnsignedIff(spec, MAX_PORT, e.port);
    }
  }

  /** Reading an item finds what the grammar says it means, and fails when it means nothing. */
  lemma SpecGrammarIff(item: string, e: Entry)
    ensures ParseSpec(item) == Some(e) <==> Means(item, e)
  {
    MeansIff(item, e);
    if SpecText(Trim(item), e) {
      MeansParses(item, e);
    }
    if ParseSpec(item) == Some(e) {
      ParsesMeans(item, e);
    }
  }

  // ---------------------------------------------------------------- canonical texts

  lemma DecPlain(n: nat)
    ensures NoSpace(Dec(n)) && Free(Dec(n), ',') && Free(Dec(n), '-')
  {
    DecFree(n, ',');
    DecFree(n, '-');
    assert forall i :: 0 <= i < |Dec(n)| ==> IsDigit(Dec(n)[i]);
  }

  lemma EntryPlain(e: Entry)
    ensures NoSpace(PrintEntry(e)) && Free(PrintEntry(e), ',')
  {
    match e
    case Single(p) => DecPlain(p);
    case Span(a, b) =>
      DecPlain(a);
      DecPlain(b);
  }

  lemma DecIsNumeral(n: nat)
    ensures Numeral(Dec(n), n)
  {
    ParseDec(n, n);
    ParseUnsignedIff(Dec(n), n, n);
  }

  /** A printed entry is read back as it was. */
  lemma EntryRoundTrip(e: Entry)
    requires Proper(e)
    ensures ParseSpec(PrintEntry(e)) == Some(e)
  {
    EntryPlain(e);
    TrimFixes(PrintEntry(e));
    if e.Single? {
      DecIsNumeral(e.port);
    } else {
      DecIsNumeral(e.first);
      DecIsNumeral(e.last);
    }
    MeansParses(PrintEntry(e), e);
  }

  lemma ParsedProper(item: string)
    ensures ParseSpec(item).Some? ==> Proper(ParseSpec(item).value)
  {
  }

  /** What is known of the entries of a list that was read. */
  lemma EntriesOf(text: string)
    requires ReadList(text).Some?
    ensures var items, es := Split(text, ','), ReadList(text).value;
            && |es| == |items|
            && forall i :: 0 <= i < |es| ==> ParseSpec(items[i]) == Some(es[i]) && ParseSpec(PrintEntry(es[i])) == Some(es[i])
  {
    var items, es := Split(text, ','), ReadList(text).value;
    ParseAllIff(ParseSpec, items);
    forall i | 0 <= i < |es| ensures ParseSpec(PrintEntry(es[i])) == Some(es[i]) {
      ParsedProper(items[i]);
      EntryRoundTrip(es[i]);
    }
  }

  /** The canonical texts, joined with commas, are read as the same entries, so a second pass changes nothing. */
  lemma ReparseIsStable(text: string)
    requires ReadList(text).Some?
    ensures ReadList(Join(PrintEntries(ReadList(text).value), ",")) == ReadList(text)
  {
    var es := ReadList(text).value;
    EntriesOf(text);
    var texts := PrintEntries(es);
    forall i | 0 <= i < |texts| ensures Free(texts[i], ',') {
      EntryPlain(es[i]);
    }
    SplitJoin(texts, ',');
    ParseAllIs(ParseSpec, texts, es, false);
  }

  // ---------------------------------------------------------------- the ports

  predicate Covers(e: Entry, p: nat) {
    match e
    case Single(q) => p == q
    case Span(a, b) => a <= p <= b
  }

  /** Some item of a list means an entry that covers the port. */
  ghost predicate Allows(items: seq<string>, p: nat) {
    exists i, e :: 0 <= i < |items| && Means(items[i], e) && Covers(e, p)
  }

  /** The canonical list allows the same ports as the text it came from. */
  lemma SamePorts(text: string, p: nat)
    requires ReadList(text).Some?
    ensures Allows(Split(text, ','), p) <==> Allows(PrintEntries(ReadList(text).value), p)
  {
    var items, es := Split(text, ','), ReadList(text).value;
    EntriesOf(text);
    var texts := PrintEntries(es);
    forall i, e | 0 <= i < |es| ensures Means(items[i], e) <==> Means(texts[i], e) {
      SpecGrammarIff(items[i], e);
      SpecGrammarIff(texts[i], e);
    }
  }
}
