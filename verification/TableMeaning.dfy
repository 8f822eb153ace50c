/**
 The numbers of `TableLayout` against the table that is drawn: how wide a line is, what the optional columns leave over,
 and that they get the largest width there is room for.
 */
module TableMeaning {
  import opened Wrappers
  import opened TableLayout

  // ---------------------------------------------------------------- a drawn line

  function Blanks(n: nat): string {
    seq(n, _ => ' ')
  }

  /** A line of a table in the Markdown style, without its text: a bar, and for each column its width, two blanks and a bar. */
  function Line(widths: seq<nat>, active: seq<bool>): string
    requires |widths| == |active|
  {
    if widths == [] then "|"
    else
      var n := |widths| - 1;
      Line(widths[..n], active[..n]) + if active[n] then " " + Blanks(widths[n]) + " |" else ""
  }

  lemma {:induction false} LineLength(widths: seq<nat>, active: seq<bool>)
    requires |widths| == |active|
    ensures |Line(widths, active)| == Content(widths, active) + 3 * Count(active) + 1
  {
    if widths != [] {
      LineLength(widths[..|widths| - 1], active[..|widths| - 1]);
    }
  }

  lemma {:induction false} CountIff(flags: seq<bool>)
    ensures Count(flags) > 0 <==> true in flags
  {
    if flags != [] {
      var n := |flags| - 1;
      CountIff(flags[..n]);
      assert flags == flags[..n] + [flags[n]];
    }
  }

  /** The computed width is the length of a drawn line, and nothing when no column is left. */
  lemma TotalWidthIsDrawn(widths: seq<nat>, active: seq<bool>)
    requires |widths| == |active|
    ensures TotalWidth(widths, active) == if true in active then |Line(widths, active)| else 0
  {
    LineLength(widths, active);
    CountIff(active);
  }

  // ---------------------------------------------------------------- column names

  /** The same letter of the ASCII alphabet, one of them a capital. */
  predicate CaseDiffers(c: char, d: char) {
    ('A' <= c <= 'Z' && d as int == c as int + 32) || ('A' <= d <= 'Z' && c as int == d as int + 32)
  }

  /** Names are the same when they are spelt the same but for the case of ASCII letters. */
  lemma SameNameIff(a: string, b: string)
    ensures SameName(a, b) <==> |a| == |b| && forall i :: 0 <= i < |a| ==> a[i] == b[i] || CaseDiffers(a[i], b[i])
  {
    if |a| == |b| {
      forall i | 0 <= i < |a| ensures Lower(a[i]) == Lower(b[i]) <==> a[i] == b[i] || CaseDiffers(a[i], b[i]) {
      }
    }
  }

  // ---------------------------------------------------------------- the width of the optional columns

  /** What is required is the width of the table with nothing in its optional columns. */
  lemma {:induction false} RequiredContent(widths: seq<nat>, optional: seq<bool>, active: seq<bool>)
    requires |widths| == |optional| == |active|
    ensures Content(widths, Except(active, optional)) == Content(Cut(widths, optional, 0), active)
  {
    if widths != [] {
      var n := |widths| - 1;
      RequiredContent(widths[..n], optional[..n], active[..n]);
      assert Cut(widths, optional, 0)[..n] == Cut(widths[..n], optional[..n], 0);
      assert Except(active, optional)[..n] == Except(active[..n], optional[..n]);
    }
  }

  lemma RequiredIs(widths: seq<nat>, optional: seq<bool>, active: seq<bool>)
    requires |widths| == |optional| == |active| && true in active
    ensures Required(widths, optional, active) == TotalWidth(Cut(widths, optional, 0), active)
  {
    RequiredContent(widths, optional, active);
    CountIff(active);
  }

  /** There is room for columns of one width. */
  predicate Room(terminal: nat, required: nat, columns: nat, per: nat) {
    required + per * columns <= terminal
  }

  lemma AtMost(a: nat, b: nat, columns: nat)
    requires a <= b
    ensures a * columns <= b * columns
  {
  }

  lemma ShareBounds(remaining: nat, columns: nat)
    requires columns > 0
    ensures remaining / columns * columns <= remaining < remaining / columns * columns + columns
  {
    assert remaining == columns * (remaining / columns) + remaining % columns;
  }

  lemma ShareIff(remaining: nat, columns: nat, per: nat, share: nat)
    requires share * columns <= remaining < share * columns + columns
    ensures per <= share <==> per * columns <= remaining
  {
    if per <= share {
      AtMost(per, share, columns);
    } else {
      AtMost(share + 1, per, columns);
      OneMore(columns, share);
    }
  }

  lemma RoomIff(terminal: nat, required: nat, columns: nat, per: nat, remaining: nat)
    requires columns > 0 && per > 0 && remaining == if terminal < required then 0 else terminal - required
    ensures per <= remaining / columns <==> Room(terminal, required, columns, per)
  {
    ShareBounds(remaining, columns);
    ShareIff(remaining, columns, per, remaining / columns);
    assert per * columns > 0;
  }

  lemma PerColumnIsShare(terminal: nat, required: nat, columns: nat, share: nat)
    requires columns > 0 && share == (if terminal < required then 0 else terminal - required) / columns
    ensures PerColumn(terminal, required, columns) == if share < 6 then 6 else if share > 24 then 24 else share
  {
    if terminal <= required {
      assert share == 0;
    }
  }

  /** The share is the largest width from 6 to 24 for which there is room in every column, and 6 when there is none. */
  lemma PerColumnIff(terminal: nat, required: nat, columns: nat, per: nat)
    requires columns > 0
    ensures PerColumn(terminal, required, columns) == per
       <==> && 6 <= per <= 24
            && (per > 6 ==> Room(terminal, required, columns, per))
            && (per < 24 ==> !Room(terminal, required, columns, per + 1))
  {
    var remaining := if terminal < required then 0 else terminal - required;
    var share := remaining / columns;
    PerColumnIsShare(terminal, required, columns, share);
    RoomIff(terminal, required, columns, per + 1, remaining);
    if per > 0 {
      RoomIff(terminal, required, columns, per, remaining);
    }
  }

  lemma {:induction false} CutGrows(widths: seq<nat>, optional: seq<bool>, active: seq<bool>, limit: nat)
    requires |widths| == |optional| == |active|
    requires forall i :: 0 <= i < |widths| && active[i] && optional[i] ==> widths[i] >= limit
    ensures Content(Cut(widths, optional, limit), active)
         == Content(widths, Except(active, optional)) + limit * Count(Both(active, optional))
  {
    if widths != [] {
      var n := |widths| - 1;
      CutGrows(widths[..n], optional[..n], active[..n], limit);
      assert Cut(widths, optional, limit)[..n] == Cut(widths[..n], optional[..n], limit);
      assert Except(active, optional)[..n] == Except(active[..n], optional[..n]);
      var both := Both(active, optional);
      assert both[..n] == Both(active[..n], optional[..n]);
      if both[n] {
        OneMore(limit, Count(both[..n]));
      }
    }
  }

  lemma OneMore(limit: nat, k: nat)
    ensures limit * (k + 1) == limit * k + limit
  {
  }

  /** Nothing wider would do: with one more character in each optional column, all of them that long, the table is too wide. */
  lemma ChosenWidthIsLargest(terminal: nat, widths: seq<nat>, optional: seq<bool>, active: seq<bool>)
    requires |widths| == |optional| == |active| && Count(Both(active, optional)) > 0
    requires var per := ChosenWidth(terminal, widths, optional, active);
             per < 24 && forall i :: 0 <= i < |widths| && active[i] && optional[i] ==> widths[i] > per
    ensures TotalWidth(Cut(widths, optional, ChosenWidth(terminal, widths, optional, active) + 1), active) > terminal
  {
    var per := ChosenWidth(terminal, widths, optional, active);
    PerColumnIff(terminal, Required(widths, optional, active), Count(Both(active, optional)), per);
    CutGrows(widths, optional, active, per + 1);
    BothActive(active, optional);
  }

  lemma BothActive(active: seq<bool>, optional: seq<bool>)
    requires |active| == |optional| && Count(Both(active, optional)) > 0
    ensures Count(active) > 0
  {
    CountIff(active);
    CountIff(Both(active, optional));
    var i :| 0 <= i < |active| && Both(active, optional)[i];
    assert active[i];
  }
}
