/**
 Fitting a table into the terminal (iconnectd/src/cli.rs): columns are dropped from a list until the table fits,
 and when that is not enough the optional columns are truncated. Widths are display widths per column.
 */
module TableLayout {
  import opened Wrappers

  const MIN_WIDTH := 6
  const MAX_WIDTH := 24

  function Min(a: nat, b: nat): nat {
    if a < b then a else b
  }

  predicate InRange(indices: seq<nat>, n: nat) {
    forall i :: 0 <= i < |indices| ==> indices[i] < n
  }

  predicate Distinct(indices: seq<nat>) {
    forall i, j :: 0 <= i < j < |indices| ==> indices[i] != indices[j]
  }

  // ---------------------------------------------------------------- widths

  function Count(flags: seq<bool>): nat {
    if flags == [] then 0 else Count(flags[..|flags| - 1]) + if flags[|flags| - 1] then 1 else 0
  }

  function Content(widths: seq<nat>, active: seq<bool>): nat
    requires |widths| == |active|
  {
    if widths == [] then 0
    else
      var n := |widths| - 1;
      Content(widths[..n], active[..n]) + if active[n] then widths[n] else 0
  }

  /** The width of a table: three characters of frame per column, and one more. */
  function TotalWidth(widths: seq<nat>, active: seq<bool>): nat
    requires |widths| == |active|
  {
    if Count(active) == 0 then 0 else Content(widths, active) + 3 * Count(active) + 1
  }

  method TableTotalWidth(widths: seq<nat>, active: seq<bool>) returns (total: nat)
    requires |widths| == |active|
    ensures total == TotalWidth(widths, active)
  {
    var columns, content, i := 0, 0, 0;
    while i < |active|
      invariant 0 <= i <= |active|
      invariant columns == Count(active[..i]) && content == Content(widths[..i], active[..i])
    {
      assert active[..i + 1][..i] == active[..i] && widths[..i + 1][..i] == widths[..i];
      if active[i] {
        columns, content := columns + 1, content + widths[i];
      }
      i := i + 1;
    }
    assert active[..i] == active && widths[..i] == widths;
    total := if columns == 0 then 0 else content + 3 * columns + 1;
  }

  // ---------------------------------------------------------------- finding columns

  function Lower(c: char): char {
    if 'A' <= c <= 'Z' then ((c as int) + 32) as char else c
  }

  predicate SameName(a: string, b: string) {
    |a| == |b| && forall i :: 0 <= i < |a| ==> Lower(a[i]) == Lower(b[i])
  }

  /** The first header with a name. */
  predicate FirstMatch(headers: seq<string>, name: string, index: nat) {
    && index < |headers| && SameName(headers[index], name)
    && forall j :: 0 <= j < index ==> !SameName(headers[j], name)
  }

  /** The columns of the names, in the order of the names, each once. */
  ghost predicate Finds(headers: seq<string>, names: seq<string>, indices: seq<nat>) {
    && InRange(indices, |headers|) && Distinct(indices)
    && (forall k, i :: 0 <= k < |names| && FirstMatch(headers, names[k], i) ==> i in indices)
    && (forall a :: 0 <= a < |indices| ==> Introduces(headers, names, indices, a))
  }

  /** Some name finds entry `a`, and the names before it find only entries before `a`. */
  ghost predicate Introduces(headers: seq<string>, names: seq<string>, indices: seq<nat>, a: nat)
    requires a < |indices|
  {
    exists k :: 0 <= k < |names| && FirstMatch(headers, names[k], indices[a]) &&
                forall j, i :: 0 <= j < k && FirstMatch(headers, names[j], i) ==> i in indices[..a]
  }

  method Position(headers: seq<string>, name: string) returns (index: Option<nat>)
    ensures index.Some? ==> FirstMatch(headers, name, index.value)
    ensures index.None? ==> forall i :: !FirstMatch(headers, name, i)
  {
    var i := 0;
    while i < |headers|
      invariant 0 <= i <= |headers|
      invariant forall j :: 0 <= j < i ==> !SameName(headers[j], name)
    {
      if SameName(headers[i], name) {
        return Some(i);
      }
      i := i + 1;
    }
    return None;
  }

  method HeaderIndices(headers: seq<string>, names: seq<string>) returns (indices: seq<nat>)
    ensures Finds(headers, names, indices)
  {
    indices := [];
    var k := 0;
    while k < |names|
      invariant 0 <= k <= |names|
      invariant Finds(headers, names[..k], indices)
    {
      var index := Position(headers, names[k]);
      var before := indices;
      if index.Some? && index.value !in indices {
        indices := indices + [index.value];
      }
      assert names[..k] + [names[k]] == names[..k + 1];
      FindsNext(headers, names[..k], names[k], before, index);
      assert Finds(headers, names[..k + 1], indices);
      k := k + 1;
    }
    assert names[..k] == names;
  }

  lemma FirstMatchIsUnique(headers: seq<string>, name: string, i: nat, j: nat)
    requires FirstMatch(headers, name, i) && FirstMatch(headers, name, j)
    ensures i == j
  {
  }

  lemma FindsNext(headers: seq<string>, names: seq<string>, name: string, before: seq<nat>, index: Option<nat>)
    requires Finds(headers, names, before)
    requires index.Some? ==> FirstMatch(headers, name, index.value)
    requires index.None? ==> forall i :: !FirstMatch(headers, name, i)
    ensures Finds(headers, names + [name], if index.Some? && index.value !in before then before + [index.value] else before)
  {
    var all := names + [name];
    var after := if index.Some? && index.value !in before then before + [index.value] else before;
    forall k, i | 0 <= k < |all| && FirstMatch(headers, all[k], i) ensures i in after {
      if k < |names| {
        assert FirstMatch(headers, names[k], i);
        assert i in before;
      } else {
        FirstMatchIsUnique(headers, name, i, index.value);
      }
    }
    forall a | 0 <= a < |after| ensures Introduces(headers, all, after, a) {
      IntroducesNext(headers, names, name, before, after, a);
    }
  }

  lemma IntroducesNext(headers: seq<string>, names: seq<string>, name: string, before: seq<nat>, after: seq<nat>, a: nat)
    requires Finds(headers, names, before) && a < |after|
    requires after == before || (|after| == |before| + 1 && before <= after && FirstMatch(headers, name, after[|before|]))
    ensures Introduces(headers, names + [name], after, a)
  {
    var all := names + [name];
    if a < |before| {
      assert Introduces(headers, names, before, a);
      var k :| 0 <= k < |names| && FirstMatch(headers, names[k], before[a]) &&
               forall j, i :: 0 <= j < k && FirstMatch(headers, names[j], i) ==> i in before[..a];
      assert before[..a] == after[..a];
      assert FirstMatch(headers, all[k], after[a]);
      forall j, i | 0 <= j < k && FirstMatch(headers, all[j], i) ensures i in after[..a] {
        assert FirstMatch(headers, names[j], i);
      }
    } else {
      var k := |names|;
      assert after[..a] == before;
      assert FirstMatch(headers, all[k], after[a]);
      forall j, i | 0 <= j < k && FirstMatch(headers, all[j], i) ensures i in after[..a] {
        assert FirstMatch(headers, names[j], i);
      }
    }
  }

  // ---------------------------------------------------------------- dropping columns

  /** The flags after the first `k` columns of a list are dropped. */
  function Without(n: nat, drops: seq<nat>, k: nat): seq<bool>
    requires k <= |drops|
  {
    seq(n, i => i !in drops[..k])
  }

  /** Dropping `k` columns is enough. */
  predicate Fits(terminal: nat, widths: seq<nat>, drops: seq<nat>, k: nat)
    requires k <= |drops|
  {
    TotalWidth(widths, Without(|widths|, drops, k)) <= terminal
  }

  /** `k` is the least number of columns to drop, or all of them when no number is enough. */
  ghost predicate LeastDrop(terminal: Option<nat>, widths: seq<nat>, drops: seq<nat>, k: nat) {
    && k <= |drops|
    && (terminal.None? ==> k == 0)
    && (terminal.Some? ==> k == |drops| || Fits(terminal.value, widths, drops, k))
    && (terminal.Some? ==> forall j :: 0 <= j < k ==> !Fits(terminal.value, widths, drops, j))
  }

  lemma WithoutNext(n: nat, drops: seq<nat>, k: nat)
    requires InRange(drops, n) && k < |drops|
    ensures Without(n, drops, k)[drops[k]] <==> drops[k] !in drops[..k]
    ensures Without(n, drops, k + 1) == Without(n, drops, k)[drops[k] := false]
  {
    assert drops[..k + 1] == drops[..k] + [drops[k]];
  }

  lemma WithoutNone(n: nat, drops: seq<nat>)
    ensures Without(n, drops, 0) == seq(n, _ => true)
  {
    assert drops[..0] == [];
  }

  /** The first occurrence of each index. */
  function Firsts(indices: seq<nat>): seq<nat> {
    if indices == [] then []
    else
      var n := |indices| - 1;
      Firsts(indices[..n]) + if indices[n] in indices[..n] then [] else [indices[n]]
  }

  lemma {:induction false} FirstsAre(indices: seq<nat>)
    ensures Distinct(Firsts(indices)) && forall x :: x in Firsts(indices) <==> x in indices
    ensures Distinct(indices) ==> Firsts(indices) == indices
  {
    if indices != [] {
      var n := |indices| - 1;
      FirstsAre(indices[..n]);
      assert indices == indices[..n] + [indices[n]];
      if Distinct(indices) {
        assert indices[n] !in indices[..n];
      }
    }
  }

  /** Drop columns until the table fits. The first `k` entries of the list are used, each index once. */
  method SelectColumnsToDrop(terminal: Option<nat>, drops: seq<nat>, widths: seq<nat>)
    returns (active: seq<bool>, dropped: seq<nat>, total: nat, ghost k: nat)
    requires InRange(drops, |widths|)
    ensures |active| == |widths| && total == TotalWidth(widths, active)
    ensures LeastDrop(terminal, widths, drops, k)
    ensures dropped == Firsts(drops[..k]) && active == Without(|widths|, drops, k)
    ensures Distinct(dropped) && forall i :: 0 <= i < |active| ==> (active[i] <==> i !in dropped)
  {
    active := seq(|widths|, _ => true);
    WithoutNone(|widths|, drops);
    dropped, k := [], 0;
    FirstsAre(drops[..k]);
    total := TableTotalWidth(widths, active);
    if terminal.None? || total <= terminal.value {
      return;
    }
    var i := 0;
    while i < |drops| && total > terminal.value
      invariant 0 <= i <= |drops|
      invariant dropped == Firsts(drops[..i]) && active == Without(|widths|, drops, i)
      invariant total == TotalWidth(widths, active)
      invariant forall j :: 0 <= j < i ==> !Fits(terminal.value, widths, drops, j)
    {
      WithoutNext(|widths|, drops, i);
      assert drops[..i + 1][..i] == drops[..i];
      if active[drops[i]] {
        active := active[drops[i] := false];
        dropped := dropped + [drops[i]];
        total := TableTotalWidth(widths, active);
      }
      i := i + 1;
    }
    k := i;
    FirstsAre(drops[..k]);
  }

  /** Dropping more columns never widens the table, so the least fitting number is where fitting starts. */
  lemma DroppingNarrows(widths: seq<nat>, drops: seq<nat>, k: nat)
    requires InRange(drops, |widths|) && k < |drops|
    ensures TotalWidth(widths, Without(|widths|, drops, k + 1)) <= TotalWidth(widths, Without(|widths|, drops, k))
  {
    var before := Without(|widths|, drops, k);
    WithoutNext(|widths|, drops, k);
    if before[drops[k]] {
      ClearFlag(widths, before, drops[k]);
    } else {
      assert before[drops[k] := false] == before;
    }
  }

  /** Clearing a flag takes away its column. */
  lemma {:induction false} ClearFlag(widths: seq<nat>, active: seq<bool>, i: nat)
    requires |widths| == |active| && i < |active| && active[i]
    ensures Count(active[i := false]) == Count(active) - 1
    ensures Content(widths, active[i := false]) == Content(widths, active) - widths[i]
  {
    var n := |active| - 1;
    var cleared := active[i := false];
    if i == n {
      assert cleared[..n] == active[..n];
    } else {
      ClearFlag(widths[..n], active[..n], i);
      assert cleared[..n] == active[..n][i := false];
    }
  }

  lemma {:induction false} FittingIsMonotone(terminal: nat, widths: seq<nat>, drops: seq<nat>, j: nat, k: nat)
    requires InRange(drops, |widths|) && j <= k <= |drops|
    requires Fits(terminal, widths, drops, j)
    ensures Fits(terminal, widths, drops, k)
  {
    if j < k {
      FittingIsMonotone(terminal, widths, drops, j, k - 1);
      DroppingNarrows(widths, drops, k - 1);
    }
  }

  // ---------------------------------------------------------------- removing columns

  function RemoveAt<T>(xs: seq<T>, i: nat): seq<T>
    requires i < |xs|
  {
    xs[..i] + xs[i + 1..]
  }

  /** The columns whose index is not in a list. */
  function Remaining<T>(xs: seq<T>, drops: seq<nat>): seq<T> {
    if xs == [] then []
    else
      var n := |xs| - 1;
      Remaining(xs[..n], drops) + if n in drops then [] else [xs[n]]
  }

  predicate Descending(indices: seq<nat>) {
    forall i, j :: 0 <= i < j < |indices| ==> indices[i] > indices[j]
  }

  method SortDescending(indices: seq<nat>) returns (sorted: seq<nat>)
    requires Distinct(indices)
    ensures Descending(sorted) && forall x :: x in sorted <==> x in indices
  {
    sorted := [];
    var i := 0;
    while i < |indices|
      invariant 0 <= i <= |indices|
      invariant Descending(sorted) && forall x :: x in sorted <==> x in indices[..i]
    {
      var x := indices[i];
      var p := 0;
      while p < |sorted| && sorted[p] > x
        invariant 0 <= p <= |sorted|
        invariant forall j :: 0 <= j < p ==> sorted[j] > x
      {
        p := p + 1;
      }
      assert p < |sorted| ==> sorted[p] in indices[..i];
      sorted := sorted[..p] + [x] + sorted[p..];
      assert indices[..i + 1] == indices[..i] + [x];
      i := i + 1;
    }
    assert indices[..i] == indices;
  }

  /** Removing one column at a time, the last one first, leaves the columns that were not to be dropped. */
  method ApplyColumnDrops<T>(columns: seq<T>, drops: seq<nat>) returns (left: seq<T>)
    requires Distinct(drops) && InRange(drops, |columns|)
    ensures left == Remaining(columns, drops)
  {
    var sorted := SortDescending(drops);
    left := columns;
    var i := 0;
    RemainingNone(columns);
    while i < |sorted|
      invariant 0 <= i <= |sorted|
      invariant left == Remaining(columns, sorted[..i])
    {
      assert sorted[i] in drops;
      RemoveSmaller(columns, sorted[..i], sorted[i]);
      assert sorted[..i + 1] == sorted[..i] + [sorted[i]];
      left := RemoveAt(left, sorted[i]);
      i := i + 1;
    }
    assert sorted[..i] == sorted;
    SameDrops(columns, sorted, drops);
  }

  lemma {:induction false} RemainingNone<T>(xs: seq<T>)
    ensures Remaining(xs, []) == xs
  {
    if xs != [] {
      RemainingNone(xs[..|xs| - 1]);
    }
  }

  lemma {:induction false} SameDrops<T>(xs: seq<T>, a: seq<nat>, b: seq<nat>)
    requires forall x :: x in a <==> x in b
    ensures Remaining(xs, a) == Remaining(xs, b)
  {
    if xs != [] {
      SameDrops(xs[..|xs| - 1], a, b);
    }
  }

  /** Columns before every dropped one keep their places, so a smaller index still names its column. */
  lemma {:induction false} RemoveSmaller<T>(xs: seq<T>, drops: seq<nat>, i: nat)
    requires i < |xs| && forall x :: x in drops ==> x > i
    ensures i < |Remaining(xs, drops)|
    ensures RemoveAt(Remaining(xs, drops), i) == Remaining(xs, drops + [i])
  {
    var n := |xs| - 1;
    var front := xs[..n];
    if i == n {
      RemoveLast(xs, drops);
    } else {
      RemoveSmaller(front, drops, i);
      var kept, last := Remaining(front, drops), if n in drops then [] else [xs[n]];
      assert n in drops + [i] <==> n in drops;
      RemoveBefore(kept, last, i);
    }
  }

  lemma RemoveBefore<T>(a: seq<T>, b: seq<T>, i: nat)
    requires i < |a|
    ensures RemoveAt(a + b, i) == RemoveAt(a, i) + b
  {
    assert (a + b)[..i] == a[..i] && (a + b)[i + 1..] == a[i + 1..] + b;
  }

  lemma RemoveLast<T>(xs: seq<T>, drops: seq<nat>)
    requires xs != [] && forall x :: x in drops ==> x > |xs| - 1
    ensures Remaining(xs, drops) == xs && Remaining(xs, drops + [|xs| - 1]) == xs[..|xs| - 1]
  {
    KeepsAll(xs, drops);
    var n := |xs| - 1;
    var more := drops + [n];
    assert more[|drops|] == n;
    KeepsAll(xs[..n], more);
  }

  lemma {:induction false} KeepsAll<T>(xs: seq<T>, drops: seq<nat>)
    requires forall x :: x in drops ==> x >= |xs|
    ensures Remaining(xs, drops) == xs
  {
    if xs != [] {
      KeepsAll(xs[..|xs| - 1], drops);
    }
  }

  // ---------------------------------------------------------------- truncating optional columns

  function Both(a: seq<bool>, b: seq<bool>): seq<bool>
    requires |a| == |b|
  {
    seq(|a|, i requires 0 <= i < |a| => a[i] && b[i])
  }

  function Except(a: seq<bool>, b: seq<bool>): seq<bool>
    requires |a| == |b|
  {
    seq(|a|, i requires 0 <= i < |a| => a[i] && !b[i])
  }

  /** The optional columns no wider than `limit`. */
  function Cut(widths: seq<nat>, optional: seq<bool>, limit: nat): seq<nat>
    requires |widths| == |optional|
  {
    seq(|widths|, i requires 0 <= i < |widths| => if optional[i] then Min(widths[i], limit) else widths[i])
  }

  /** The width given to each optional column. */
  function PerColumn(terminal: nat, required: nat, columns: nat): nat
    requires columns > 0
  {
    var remaining := if terminal < required then 0 else terminal - required;
    if remaining == 0 then MIN_WIDTH
    else
      var share := remaining / columns;
      if share < MIN_WIDTH then MIN_WIDTH else if share > MAX_WIDTH then MAX_WIDTH else share
  }

  /** The frame and the columns that are not optional. */
  function Required(widths: seq<nat>, optional: seq<bool>, active: seq<bool>): nat
    requires |widths| == |optional| == |active|
  {
    3 * Count(active) + 1 + Content(widths, Except(active, optional))
  }

  lemma {:induction false} CutContent(widths: seq<nat>, optional: seq<bool>, active: seq<bool>, limit: nat)
    requires |widths| == |optional| == |active|
    ensures Content(Cut(widths, optional, limit), active)
         <= Content(widths, Except(active, optional)) + limit * Count(Both(active, optional))
  {
    if widths != [] {
      var n := |widths| - 1;
      CutContent(widths[..n], optional[..n], active[..n], limit);
      assert Cut(widths, optional, limit)[..n] == Cut(widths[..n], optional[..n], limit);
      assert Except(active, optional)[..n] == Except(active[..n], optional[..n]);
      var both := Both(active, optional);
      assert both[..n] == Both(active[..n], optional[..n]);
      if both[n] {
        assert limit * Count(both) == limit * Count(both[..n]) + limit;
      }
    }
  }

  lemma CutFits(terminal: nat, widths: seq<nat>, optional: seq<bool>, active: seq<bool>, limit: nat)
    requires |widths| == |optional| == |active|
    requires Required(widths, optional, active) + limit * Count(Both(active, optional)) <= terminal
    ensures TotalWidth(Cut(widths, optional, limit), active) <= terminal
  {
    CutContent(widths, optional, active, limit);
  }

  function ChosenWidth(terminal: nat, widths: seq<nat>, optional: seq<bool>, active: seq<bool>): nat
    requires |widths| == |optional| == |active| && Count(Both(active, optional)) > 0
  {
    PerColumn(terminal, Required(widths, optional, active), Count(Both(active, optional)))
  }

  /** More than the least width is given only when there is room for it in every column. */
  lemma ChosenWidthFits(terminal: nat, required: nat, columns: nat)
    requires columns > 0 && PerColumn(terminal, required, columns) != MIN_WIDTH
    ensures required + PerColumn(terminal, required, columns) * columns <= terminal
    ensures required + MIN_WIDTH * columns <= terminal
  {
    var per := PerColumn(terminal, required, columns);
    assert required < terminal;
    ShareFits(terminal - required, columns, per);
    assert MIN_WIDTH * columns <= per * columns;
  }

  /** With the width that is chosen the table fits exactly when it fits with the optional columns at their least. */
  lemma TruncationFitsIff(terminal: nat, widths: seq<nat>, optional: seq<bool>, active: seq<bool>)
    requires |widths| == |optional| == |active| && Count(Both(active, optional)) > 0
    ensures TotalWidth(Cut(widths, optional, ChosenWidth(terminal, widths, optional, active)), active) <= terminal
       <==> TotalWidth(Cut(widths, optional, MIN_WIDTH), active) <= terminal
  {
    var per := ChosenWidth(terminal, widths, optional, active);
    if per != MIN_WIDTH {
      ChosenWidthFits(terminal, Required(widths, optional, active), Count(Both(active, optional)));
      CutFits(terminal, widths, optional, active, per);
      CutFits(terminal, widths, optional, active, MIN_WIDTH);
    }
  }

  lemma ShareFits(remaining: nat, columns: nat, per: nat)
    requires columns > 0 && MIN_WIDTH <= per <= remaining / columns
    ensures per * columns <= remaining
  {
    assert remaining / columns * columns <= remaining;
  }

  function Flags(n: nat, indices: seq<nat>): seq<bool> {
    seq(n, i => i in indices)
  }

  /** The indices whose column is still shown. */
  function Shown(indices: seq<nat>, active: seq<bool>): seq<nat> {
    if indices == [] then []
    else
      var n := |indices| - 1;
      Shown(indices[..n], active) + if indices[n] < |active| && active[indices[n]] then [indices[n]] else []
  }

  lemma {:induction false} ShownAre(indices: seq<nat>, active: seq<bool>)
    ensures forall i :: i in Shown(indices, active) <==> i in indices && i < |active| && active[i]
    ensures Distinct(indices) ==> Distinct(Shown(indices, active))
  {
    if indices != [] {
      var n := |indices| - 1;
      ShownAre(indices[..n], active);
      assert indices == indices[..n] + [indices[n]];
      if Distinct(indices) {
        assert indices[n] !in indices[..n];
      }
    }
  }

  /** As many flags are set as there are indices. */
  lemma {:induction false} CountFlags(n: nat, indices: seq<nat>)
    requires Distinct(indices) && InRange(indices, n)
    ensures Count(Flags(n, indices)) == |indices|
  {
    if indices == [] {
      CountNone(Flags(n, indices));
    } else {
      var k := |indices| - 1;
      var last := indices[k];
      CountFlags(n, indices[..k]);
      assert indices == indices[..k] + [last];
      assert last !in indices[..k];
      assert Flags(n, indices)[last := false] == Flags(n, indices[..k]);
      ClearFlag(seq(n, _ => 0), Flags(n, indices), last);
    }
  }

  lemma {:induction false} CountNone(flags: seq<bool>)
    requires forall i :: 0 <= i < |flags| ==> !flags[i]
    ensures Count(flags) == 0
  {
    if flags != [] {
      CountNone(flags[..|flags| - 1]);
    }
  }

  function Assign(shown: seq<nat>, widths: seq<nat>, per: nat): seq<(nat, nat)>
    requires InRange(shown, |widths|)
  {
    seq(|shown|, i requires 0 <= i < |shown| => (shown[i], Min(widths[shown[i]], per)))
  }

  lemma ShownInRange(indices: seq<nat>, active: seq<bool>)
    ensures InRange(Shown(indices, active), |active|)
  {
    ShownAre(indices, active);
    assert forall k :: 0 <= k < |Shown(indices, active)| ==> Shown(indices, active)[k] in Shown(indices, active);
  }

  /** The columns to truncate, each with its new width. */
  function Targets(terminal: nat, optional: seq<nat>, widths: seq<nat>, active: seq<bool>): seq<(nat, nat)>
    requires |widths| == |active|
  {
    var shown := Shown(optional, active);
    ShownInRange(optional, active);
    if shown == [] then []
    else Assign(shown, widths, PerColumn(terminal, Required(widths, Flags(|widths|, optional), active), |shown|))
  }

  method OptionalColumnTargets(terminal: nat, optional: seq<nat>, widths: seq<nat>, active: seq<bool>)
    returns (targets: seq<(nat, nat)>)
    requires |widths| == |active|
    ensures targets == Targets(terminal, optional, widths, active)
  {
    if optional == [] { return []; }
    var isOptional := MarkOptional(|widths|, optional);
    var shown := Shown(optional, active);
    if shown == [] { return []; }
    ShownInRange(optional, active);
    var required := RequiredWidth(widths, isOptional, active);
    return Assign(shown, widths, PerColumn(terminal, required, |shown|));
  }

  method RequiredWidth(widths: seq<nat>, isOptional: seq<bool>, active: seq<bool>) returns (required: nat)
    requires |widths| == |isOptional| == |active|
    ensures required == Required(widths, isOptional, active)
  {
    var columns, content, i := 0, 0, 0;
    ghost var kept := Except(active, isOptional);
    while i < |widths|
      invariant 0 <= i <= |widths|
      invariant columns == Count(active[..i]) && content == Content(widths[..i], kept[..i])
    {
      assert active[..i + 1][..i] == active[..i] && widths[..i + 1][..i] == widths[..i] && kept[..i + 1][..i] == kept[..i];
      if active[i] {
        columns := columns + 1;
        if !isOptional[i] {
          content := content + widths[i];
        }
      }
      i := i + 1;
    }
    assert active[..i] == active && widths[..i] == widths && kept[..i] == kept;
    return 3 * columns + 1 + content;
  }

  method MarkOptional(n: nat, optional: seq<nat>) returns (flags: seq<bool>)
    ensures flags == Flags(n, optional)
  {
    flags := seq(n, _ => false);
    var i := 0;
    while i < |optional|
      invariant 0 <= i <= |optional|
      invariant flags == Flags(n, optional[..i])
    {
      assert optional[..i + 1] == optional[..i] + [optional[i]];
      if optional[i] < n {
        flags := flags[optional[i] := true];
      }
      i := i + 1;
    }
    assert optional[..i] == optional;
  }

  /** The widths after the truncations have been carried out one by one. */
  function Truncated(widths: seq<nat>, targets: seq<(nat, nat)>): (r: seq<nat>)
    ensures |r| == |widths|
  {
    if targets == [] then widths
    else
      var n := |targets| - 1;
      var before := Truncated(widths, targets[..n]);
      if targets[n].0 < |widths| then before[targets[n].0 := targets[n].1] else before
  }

  lemma {:induction false} TruncatedAt(widths: seq<nat>, targets: seq<(nat, nat)>, per: nat, i: nat)
    requires i < |widths|
    requires forall k :: 0 <= k < |targets| ==> targets[k].0 < |widths| && targets[k].1 == Min(widths[targets[k].0], per)
    ensures Truncated(widths, targets)[i]
         == if exists k :: 0 <= k < |targets| && targets[k].0 == i then Min(widths[i], per) else widths[i]
  {
    if targets != [] {
      var n := |targets| - 1;
      TruncatedAt(widths, targets[..n], per, i);
      if targets[n].0 != i && exists k :: 0 <= k < |targets| && targets[k].0 == i {
        var k :| 0 <= k < |targets| && targets[k].0 == i;
        assert targets[..n][k].0 == i;
      }
    }
  }

  /** Carrying out the truncations cuts the optional columns that are shown. */
  lemma TargetsCut(terminal: nat, optional: seq<nat>, widths: seq<nat>, active: seq<bool>)
    requires |widths| == |active| && Shown(optional, active) != []
    ensures var flags := Flags(|widths|, optional);
            var per := PerColumn(terminal, Required(widths, flags, active), |Shown(optional, active)|);
            Truncated(widths, Targets(terminal, optional, widths, active)) == Cut(widths, Both(active, flags), per)
  {
    var shown, flags := Shown(optional, active), Flags(|widths|, optional);
    var per := PerColumn(terminal, Required(widths, flags, active), |shown|);
    var targets := Targets(terminal, optional, widths, active);
    ShownAre(optional, active);
    assert forall k :: 0 <= k < |shown| ==> shown[k] in shown;
    forall i | 0 <= i < |widths| ensures Truncated(widths, targets)[i] == Cut(widths, Both(active, flags), per)[i] {
      TruncatedAt(widths, targets, per, i);
      if i in shown {
        var k :| 0 <= k < |shown| && shown[k] == i;
        assert targets[k].0 == i;
      } else {
        assert !exists k :: 0 <= k < |targets| && targets[k].0 == i;
      }
    }
  }

  lemma {:induction false} CutShown(widths: seq<nat>, flags: seq<bool>, active: seq<bool>, limit: nat)
    requires |widths| == |flags| == |active|
    ensures Content(Cut(widths, Both(active, flags), limit), active) == Content(Cut(widths, flags, limit), active)
  {
    if widths != [] {
      var n := |widths| - 1;
      CutShown(widths[..n], flags[..n], active[..n], limit);
      assert Cut(widths, Both(active, flags), limit)[..n] == Cut(widths[..n], Both(active[..n], flags[..n]), limit);
      assert Cut(widths, flags, limit)[..n] == Cut(widths[..n], flags[..n], limit);
    }
  }

  lemma ShownCount(optional: seq<nat>, active: seq<bool>)
    requires Distinct(optional)
    ensures |Shown(optional, active)| == Count(Both(active, Flags(|active|, optional)))
  {
    ShownAre(optional, active);
    var shown := Shown(optional, active);
    assert InRange(shown, |active|) by {
      assert forall k :: 0 <= k < |shown| ==> shown[k] in shown;
    }
    CountFlags(|active|, shown);
    assert Flags(|active|, shown) == Both(active, Flags(|active|, optional));
  }

  // ---------------------------------------------------------------- the whole layout

  /** The widths that are shown in the end. */
  function FinalWidths(terminal: nat, optional: seq<nat>, widths: seq<nat>, active: seq<bool>): seq<nat>
    requires |widths| == |active|
  {
    if TotalWidth(widths, active) <= terminal then widths
    else Truncated(widths, Targets(terminal, optional, widths, active))
  }

  /**
   The table fits the terminal in the end exactly when it fits after the drops, or fits with every optional
   column that is left cut to its least width.
   */
  lemma LayoutFitsIff(terminal: nat, optional: seq<nat>, widths: seq<nat>, active: seq<bool>)
    requires |widths| == |active| && Distinct(optional)
    ensures TotalWidth(FinalWidths(terminal, optional, widths, active), active) <= terminal
       <==> || TotalWidth(widths, active) <= terminal
            || TotalWidth(Cut(widths, Flags(|widths|, optional), MIN_WIDTH), active) <= terminal
  {
    var flags := Flags(|widths|, optional);
    ShownCount(optional, active);
    if TotalWidth(widths, active) > terminal {
      if Shown(optional, active) == [] {
        NothingToCut(widths, flags, active, MIN_WIDTH);
      } else {
        var per := PerColumn(terminal, Required(widths, flags, active), |Shown(optional, active)|);
        TargetsCut(terminal, optional, widths, active);
        CutShown(widths, flags, active, per);
        TruncationFitsIff(terminal, widths, flags, active);
      }
    }
  }

  lemma {:induction false} NothingToCut(widths: seq<nat>, flags: seq<bool>, active: seq<bool>, limit: nat)
    requires |widths| == |flags| == |active| && Count(Both(active, flags)) == 0
    ensures Content(Cut(widths, flags, limit), active) == Content(widths, active)
  {
    if widths != [] {
      var n := |widths| - 1;
      assert Both(active, flags)[..n] == Both(active[..n], flags[..n]);
      NothingToCut(widths[..n], flags[..n], active[..n], limit);
      assert Cut(widths, flags, limit)[..n] == Cut(widths[..n], flags[..n], limit);
    }
  }
}
