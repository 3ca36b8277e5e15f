/**
 * Compute-unit benchmark tables: the markdown table of one run, compared
 * row by row with the most recent table already in the file, and the
 * matrix table that sets several programs side by side. Files are given
 * by their contents; the new contents are returned.
 */
module BencherResult {
  import opened Wrappers
  import opened Solana
  import opened Text
  import opened ResultTypes

  /** `MolluskComputeUnitBenchResult`. */
  datatype BenchResult = BenchResult(name: string, cusConsumed: U64)

  /** `MolluskComputeUnitBenchResult::new`: only the compute units of the
      result are kept. */
  function NewBenchResult(name: string, result: InstructionResult): (r: BenchResult)
    ensures r.name == name && r.cusConsumed == result.computeUnitsConsumed
  {
    BenchResult(name, result.computeUnitsConsumed)
  }

  /** The `panic`s of `parse_last_md_table` (an `unwrap` on a missing
      cell or an unparsable number), as errors. */
  datatype ParseFault = MissingName(line: string) | MissingUnits(line: string) | BadUnits(line: string)

  // ---------------------------------------------------------------------
  // Deltas.

  const I64_LIMIT: nat := 0x8000_0000_0000_0000

  /** `x as i64` for a `u64`: values from 2^63 up wrap to negatives. */
  function AsI64(x: U64): (r: int)
    ensures x < I64_LIMIT ==> r == x
    ensures x >= I64_LIMIT ==> r == x - U64_LIMIT
    ensures -(I64_LIMIT as int) <= r < I64_LIMIT
  {
    if x < I64_LIMIT then x else x - U64_LIMIT
  }

  /** The cast loses no information: different counts stay different. */
  lemma AsI64Injective(a: U64, b: U64)
    ensures AsI64(a) == AsI64(b) <==> a == b
  {
  }

  /** Three digits with leading zeros: a group after a separator. */
  function Group(x: nat): (s: string)
    requires x < 1000
    ensures |s| == 3 && forall i :: 0 <= i < 3 ==> IsDigit(s[i])
  {
    [DigitChar(x / 100), DigitChar(x / 10 % 10), DigitChar(x % 10)]
  }

  /** `to_formatted_string(&Locale::en)` of a non-negative number: digits
      in groups of three separated by commas. */
  function Grouped(n: nat): (s: string)
    ensures |s| > 0 && IsDigit(s[0])
    ensures forall i :: 0 <= i < |s| ==> IsDigit(s[i]) || s[i] == ','
    decreases n
  {
    if n < 1000 then Digits(n) else Grouped(n / 1000) + "," + Group(n % 1000)
  }

  /** A text with its commas removed. */
  function Ungroup(s: string): (r: string)
    ensures ',' !in r
    decreases |s|
  {
    if s == [] then []
    else if s[|s| - 1] == ',' then Ungroup(s[..|s| - 1])
    else Ungroup(s[..|s| - 1]) + [s[|s| - 1]]
  }

  lemma {:induction false} UngroupAppend(a: string, b: string)
    ensures Ungroup(a + b) == Ungroup(a) + Ungroup(b)
    decreases |b|
  {
    if b != [] {
      var b' := b[..|b| - 1];
      assert (a + b)[..|a + b| - 1] == a + b';
      UngroupAppend(a, b');
    } else {
      assert a + b == a;
    }
  }

  /** A number of two or more digits prints as its leading digits, then
      its last one. */
  lemma DigitsLast(n: nat)
    requires n >= 10
    ensures Digits(n) == Digits(n / 10) + [DigitChar(n % 10)]
  {
  }

  /** Dropping one digit three times drops the last three at once, and
      those three are the digits of the remainder below 1000. */
  lemma ThousandsDigits(n: nat)
    ensures n / 10 / 10 / 10 == n / 1000
    ensures n / 10 / 10 % 10 == n % 1000 / 100
    ensures n / 10 % 10 == n % 1000 / 10 % 10
    ensures n % 10 == n % 1000 % 10
  {
  }

  /** A number above 999 prints as its thousands followed by its last
      three digits. */
  lemma DigitsThousands(n: nat)
    requires n >= 1000
    ensures Digits(n) == Digits(n / 1000) + Group(n % 1000)
  {
    ThousandsDigits(n);
    DigitsLast(n);
    DigitsLast(n / 10);
    DigitsLast(n / 10 / 10);
    AppendThree(Digits(n / 1000), DigitChar(n % 1000 / 100), DigitChar(n % 1000 / 10 % 10), DigitChar(n % 1000 % 10));
  }

  lemma AppendThree(s: string, a: char, b: char, c: char)
    ensures s + [a] + [b] + [c] == s + [a, b, c]
  {
  }

  /** En-locale grouping reads as the plain decimal digits once its commas
      are removed. */
  lemma {:induction false} GroupedReadsAsDigits(n: nat)
    ensures Ungroup(Grouped(n)) == Digits(n)
    decreases n
  {
    if n < 1000 {
      NoCommaUngroup(Digits(n));
    } else {
      var q, r := n / 1000, n % 1000;
      GroupedReadsAsDigits(q);
      GroupedLast(q, r);
      DigitsThousands(n);
    }
  }

  /** Removing the commas of one more group keeps its three digits. */
  lemma GroupedLast(q: nat, r: nat)
    requires r < 1000
    ensures Ungroup(Grouped(q) + "," + Group(r)) == Ungroup(Grouped(q)) + Group(r)
  {
    var g := Grouped(q);
    assert g + "," + Group(r) == g + ([','] + Group(r));
    UngroupAppend(g, [','] + Group(r));
    UngroupAppend([','], Group(r));
    NoCommaUngroup(Group(r));
    assert [','][..0] == [];
  }

  /** A number below 1000 prints in at most three digits. */
  lemma DigitsBelowThousand(n: nat)
    requires n < 1000
    ensures |Digits(n)| <= 3
  {
    if n >= 10 {
      DigitsLast(n);
      if n / 10 >= 10 {
        DigitsLast(n / 10);
        assert n / 10 / 10 < 10;
      }
    }
  }

  /** Commas exactly where a group of three digits starts, counted from
      the right. */
  predicate CommasEveryThree(s: string) {
    |s| % 4 != 0 && forall i :: 0 <= i < |s| ==> (s[i] == ',' <==> (|s| - i) % 4 == 0)
  }

  /** Digits alone, at most three, have no comma and the right length. */
  lemma ShortDigitsGrouped(s: string)
    requires 0 < |s| <= 3 && forall i :: 0 <= i < |s| ==> IsDigit(s[i])
    ensures CommasEveryThree(s)
  {
  }

  /** A comma and three more digits keep the commas in place. */
  lemma CommaGroupGrouped(g: string, tail: string)
    requires CommasEveryThree(g)
    requires |tail| == 3 && forall i :: 0 <= i < 3 ==> IsDigit(tail[i])
    ensures CommasEveryThree(g + [','] + tail)
  {
    var s := g + [','] + tail;
    forall i | 0 <= i < |s| ensures s[i] == ',' <==> (|s| - i) % 4 == 0 {
      if i < |g| {
        assert s[i] == g[i];
        assert |s| - i == (|g| - i) + 4;
      } else if i > |g| {
        assert s[i] == tail[i - |g| - 1];
      }
    }
  }

  /** In en-locale grouping a comma stands exactly before each group of
      three digits counted from the right, and so never first. */
  lemma {:induction false} GroupedCommas(n: nat)
    ensures |Grouped(n)| % 4 != 0
    ensures forall i :: 0 <= i < |Grouped(n)| ==> (Grouped(n)[i] == ',' <==> (|Grouped(n)| - i) % 4 == 0)
    decreases n
  {
    if n < 1000 {
      DigitsBelowThousand(n);
      ShortDigitsGrouped(Digits(n));
    } else {
      GroupedCommas(n / 1000);
      CommaGroupGrouped(Grouped(n / 1000), Group(n % 1000));
      assert Grouped(n) == Grouped(n / 1000) + [','] + Group(n % 1000);
    }
  }

  /** A text without commas is its own ungrouping. */
  lemma {:induction false} NoCommaUngroup(s: string)
    requires forall i :: 0 <= i < |s| ==> s[i] != ','
    ensures Ungroup(s) == s
    decreases |s|
  {
    if s != [] {
      NoCommaUngroup(s[..|s| - 1]);
    }
  }

  /** The delta cell of a row: `- new -` without a previous row of that
      name, `--` for equal units, otherwise the signed difference of the
      two counts cast to `i64`. */
  function DeltaLabel(previous: Option<U64>, cus: U64): string {
    match previous
    case None => "- new -"
    case Some(prev) =>
      var delta := AsI64(cus) - AsI64(prev);
      if delta == 0 then "--" else if delta > 0 then "+" + Grouped(delta) else "-" + Grouped(-delta)
  }

  /** `--` exactly for an unchanged count; `+` exactly for a count that
      grew; a minus sign followed by digits exactly for one that shrank
      (all three read through the `i64` cast, which is faithful below
      2^63); and `- new -` exactly when there is no previous row. */
  lemma DeltaLabelCases(previous: Option<U64>, cus: U64)
    ensures DeltaLabel(previous, cus) == "- new -" <==> previous.None?
    ensures DeltaLabel(previous, cus) == "--" <==> previous == Some(cus)
    ensures previous.Some? ==> (DeltaLabel(previous, cus)[0] == '+' <==> AsI64(cus) > AsI64(previous.value))
    ensures previous.Some? && AsI64(cus) < AsI64(previous.value) ==>
      DeltaLabel(previous, cus)[0] == '-' && IsDigit(DeltaLabel(previous, cus)[1])
    ensures previous.Some? && cus < I64_LIMIT && previous.value < I64_LIMIT ==>
      (DeltaLabel(previous, cus)[0] == '+' <==> cus > previous.value)
  {
    if previous.Some? {
      var cell := DeltaLabel(previous, cus);
      AsI64Injective(cus, previous.value);
      if AsI64(cus) != AsI64(previous.value) {
        assert cell[1] != '-' && cell[1] != ' ';
        assert cell != "--" && cell != "- new -";
      }
    }
  }

  /** A delta cell holds no cell separator and no line break. */
  lemma DeltaLabelPlain(previous: Option<U64>, cus: U64)
    ensures '|' !in DeltaLabel(previous, cus) && '\n' !in DeltaLabel(previous, cus)
  {
    var cell := DeltaLabel(previous, cus);
    if previous.Some? && AsI64(cus) != AsI64(previous.value) {
      var delta := AsI64(cus) - AsI64(previous.value);
      var digits := if delta > 0 then Grouped(delta) else Grouped(-delta);
      assert cell == cell[..1] + digits;
      assert forall i :: 1 <= i < |cell| ==> cell[i] == digits[i - 1];
    }
  }

  /** The units of the first previous row with this name
      (`iter().find(...)`). */
  function FindPrevious(previous: seq<BenchResult>, name: string): Option<U64>
    decreases |previous|
  {
    if previous == [] then None
    else if previous[0].name == name then Some(previous[0].cusConsumed)
    else FindPrevious(previous[1..], name)
  }

  /** `FindPrevious` finds nothing exactly when no row has the name, and
      otherwise the units of the first row that has it. */
  lemma {:induction false} FindPreviousFirst(previous: seq<BenchResult>, name: string)
    ensures FindPrevious(previous, name).None? <==> forall i :: 0 <= i < |previous| ==> previous[i].name != name
    ensures FindPrevious(previous, name).Some? ==>
      exists i :: 0 <= i < |previous| && previous[i] == BenchResult(name, FindPrevious(previous, name).value)
                  && forall j :: 0 <= j < i ==> previous[j].name != name
    decreases |previous|
  {
    if previous != [] && previous[0].name != name {
      FindPreviousFirst(previous[1..], name);
      assert forall i :: 1 <= i < |previous| ==> previous[1..][i - 1] == previous[i];
      if FindPrevious(previous, name).Some? {
        var i :| 0 <= i < |previous[1..]| && previous[1..][i] == BenchResult(name, FindPrevious(previous, name).value)
                  && forall j :: 0 <= j < i ==> previous[1..][j].name != name;
        assert previous[i + 1] == BenchResult(name, FindPrevious(previous, name).value);
        assert forall j :: 0 <= j < i + 1 ==> previous[j].name != name by {
          forall j | 0 <= j < i + 1 ensures previous[j].name != name {
            if j > 0 {
              assert previous[j] == previous[1..][j - 1];
            }
          }
        }
      }
    }
  }

  /** The delta cell for one result, against the previous table if there is one. */
  function Label(previous: Option<seq<BenchResult>>, result: BenchResult): string {
    DeltaLabel(if previous.None? then None else FindPrevious(previous.value, result.name), result.cusConsumed)
  }


  // ---------------------------------------------------------------------
  // Table rows: a `|` before every cell and one closing the row.

  /** `|` before each cell: `|a|b` for the cells `a` and `b`. */
  function Open(cells: seq<string>): (r: string)
    ensures cells != [] ==> |r| > 0 && r[0] == '|'
    decreases |cells|
  {
    if cells == [] then "" else Open(cells[..|cells| - 1]) + "|" + cells[|cells| - 1]
  }

  /** A markdown table row: `|a|b|` for the cells `a` and `b`. */
  function Bars(cells: seq<string>): string {
    Open(cells) + "|"
  }

  /** A cell's text with one space on each side, as `| {} ` writes it. */
  function Pad(s: string): string {
    " " + s + " "
  }

  /** Cells without `|` are split back out of their row by `split('|')`,
      between an empty piece before the first bar and whatever follows
      the last one. */
  lemma {:induction false} SplitOpen(cells: seq<string>, rest: string)
    requires forall i :: 0 <= i < |cells| ==> '|' !in cells[i]
    ensures Split(Open(cells) + "|" + rest, '|') == [""] + cells + Split(rest, '|')
    decreases |cells|
  {
    if cells == [] {
      assert Open(cells) + "|" + rest == [] + ['|'] + rest;
      SplitCons([], '|', rest);
    } else {
      var init := cells[..|cells| - 1];
      var last := cells[|cells| - 1];
      assert forall i :: 0 <= i < |init| ==> init[i] == cells[i];
      SplitOpen(init, last + ['|'] + rest);
      assert cells == init + [last];
      SplitOpenStep(init, last, rest);
    }
  }

  lemma SplitOpenStep(init: seq<string>, last: string, rest: string)
    requires '|' !in last
    requires Split(Open(init) + "|" + (last + ['|'] + rest), '|') == [""] + init + Split(last + ['|'] + rest, '|')
    ensures Split(Open(init + [last]) + "|" + rest, '|') == [""] + (init + [last]) + Split(rest, '|')
  {
    assert (init + [last])[..|init|] == init;
    Regroup(Open(init), last, rest);
    SplitCons(last, '|', rest);
  }

  lemma Regroup(a: string, b: string, c: string)
    ensures a + "|" + b + "|" + c == a + "|" + (b + ['|'] + c)
  {
  }

  /** A row of cells without `|` has one bar per cell plus the closing one. */
  lemma {:induction false} CountOpen(cells: seq<string>)
    requires forall i :: 0 <= i < |cells| ==> '|' !in cells[i]
    ensures Count(Open(cells), '|') == |cells|
    decreases |cells|
  {
    if cells != [] {
      var init := cells[..|cells| - 1];
      var last := cells[|cells| - 1];
      assert forall i :: 0 <= i < |init| ==> init[i] == cells[i];
      CountOpen(init);
      CountAppend(Open(init) + "|", last, '|');
      CountAppend(Open(init), "|", '|');
      CountBar();
      CountAbsent(last, '|');
    }
  }

  lemma CountBar()
    ensures Count("|", '|') == 1
  {
    assert "|"[..0] == [];
  }

  lemma CountBars(cells: seq<string>)
    requires forall i :: 0 <= i < |cells| ==> '|' !in cells[i]
    ensures Count(Bars(cells), '|') == |cells| + 1
  {
    CountOpen(cells);
    CountAppend(Open(cells), "|", '|');
    CountBar();
  }

  // ---------------------------------------------------------------------
  // Writing one run's table.

  /** The lines of `md_header`'s format string, which is these lines each
      followed by a line break. */
  function HeaderLines(tableHeader: string, solanaVersion: string): (r: seq<string>)
    ensures |r| == 6
  {
    ["#### " + tableHeader, "", "Solana CLI Version: " + solanaVersion, "", "| Name | CUs | Delta |", "|------|------|-------|"]
  }

  /** `md_header`. */
  function MdHeader(tableHeader: string, solanaVersion: string): string {
    JoinLines(HeaderLines(tableHeader, solanaVersion))
  }

  /** One row, `| name | cus | delta |`, the units as plain digits. */
  function RowLine(name: string, cus: U64, delta: string): string {
    Bars([Pad(name), Pad(Digits(cus)), Pad(delta)])
  }

  /** The row of every result, in order. */
  function RowLines(previous: Option<seq<BenchResult>>, results: seq<BenchResult>): (r: seq<string>)
    ensures |r| == |results|
    ensures forall i :: 0 <= i < |results| ==>
      r[i] == RowLine(results[i].name, results[i].cusConsumed, Label(previous, results[i]))
  {
    seq(|results|, i requires 0 <= i < |results| =>
      RowLine(results[i].name, results[i].cusConsumed, Label(previous, results[i])))
  }

  /** Whether some result is new or changed. */
  predicate AnyChange(previous: Option<seq<BenchResult>>, results: seq<BenchResult>) {
    exists i :: 0 <= i < |results| && !Unchanged(previous, results[i])
  }

  /** The result matches its previous row: its delta cell is `--`. */
  predicate Unchanged(previous: Option<seq<BenchResult>>, result: BenchResult) {
    Label(previous, result) == "--"
  }

  /** `no_changes` after the given results. */
  predicate NoneChanged(previous: Option<seq<BenchResult>>, results: seq<BenchResult>)
    decreases |results|
  {
    results == [] || (NoneChanged(previous, results[..|results| - 1]) && Unchanged(previous, results[|results| - 1]))
  }

  /** `no_changes` stays set exactly when no result is new or changed. */
  lemma {:induction false} NoneChangedIff(previous: Option<seq<BenchResult>>, results: seq<BenchResult>)
    ensures NoneChanged(previous, results) <==> !AnyChange(previous, results)
    decreases |results|
  {
    if results != [] {
      var init := results[..|results| - 1];
      NoneChangedIff(previous, init);
      assert forall i :: 0 <= i < |init| ==> init[i] == results[i];
      if AnyChange(previous, init) {
        var i :| 0 <= i < |init| && !Unchanged(previous, init[i]);
        assert !Unchanged(previous, results[i]);
      }
    }
  }

  /** The table `write_results` prepends: the header, a row per result and
      an empty line. */
  function NewTable(tableHeader: string, solanaVersion: string, previous: Option<seq<BenchResult>>,
                    results: seq<BenchResult>): string
  {
    JoinLines(HeaderLines(tableHeader, solanaVersion) + RowLines(previous, results) + [""])
  }

  /** `prepend_to_md_file`: the new content, then whatever the file held. */
  function Prepend(content: string, existing: Option<string>): (r: string)
    ensures |r| >= |content| && r[..|content|] == content
    ensures existing.None? ==> r == content
    ensures existing.Some? ==> r[|content|..] == existing.value
  {
    content + existing.GetOr("")
  }

  /** The previous table: none without a file, else the parse of the file. */
  function PreviousTable(existing: Option<string>): Option<seq<BenchResult>>
    requires existing.Some? ==> ParseTable(existing.value).Ok?
  {
    if existing.None? then None else Some(ParseTable(existing.value).value)
  }

  /** `write_results`. `existing` is `compute_units.md` if it exists; the
      result is the file's new contents, or `None` when every result
      matches the previous table and nothing is written. */
  method WriteResults(tableHeader: string, solanaVersion: string, results: seq<BenchResult>, existing: Option<string>)
    returns (r: Result<Option<string>, ParseFault>)
    ensures existing.Some? && ParseTable(existing.value).Err? ==> r == Err(ParseTable(existing.value).error)
    ensures (existing.None? || ParseTable(existing.value).Ok?) ==> r.Ok?
    ensures r.Ok? ==> (r.value.Some? <==> AnyChange(PreviousTable(existing), results))
    ensures r.Ok? && r.value.Some? ==>
      r.value.value == Prepend(NewTable(tableHeader, solanaVersion, PreviousTable(existing), results), existing)
  {
    var previous: Option<seq<BenchResult>> := None;
    if existing.Some? {
      var parsed := ParseLastMdTable(existing.value);
      if parsed.Err? {
        return Err(parsed.error);
      }
      previous := Some(parsed.value);
    }
    var noChanges, mdTable := RenderRows(tableHeader, solanaVersion, previous, results);
    NoneChangedIff(previous, results);
    if !noChanges {
      JoinLinesSnoc(HeaderLines(tableHeader, solanaVersion) + RowLines(previous, results), "");
      assert mdTable + "" + "\n" == mdTable + "\n";
      mdTable := mdTable + "\n";
      r := Ok(Some(Prepend(mdTable, existing)));
    } else {
      r := Ok(None);
    }
  }

  /** The loop of `write_results`: the header and a row per result, and
      whether `no_changes` survived it. */
  method RenderRows(tableHeader: string, solanaVersion: string, previous: Option<seq<BenchResult>>, results: seq<BenchResult>)
    returns (noChanges: bool, mdTable: string)
    ensures mdTable == JoinLines(HeaderLines(tableHeader, solanaVersion) + RowLines(previous, results))
    ensures noChanges == NoneChanged(previous, results)
  {
    noChanges := true;
    var header := HeaderLines(tableHeader, solanaVersion);
    mdTable := MdHeader(tableHeader, solanaVersion);
    assert header + RowLines(previous, results[..0]) == header;
    var i := 0;
    while i < |results|
      invariant 0 <= i <= |results|
      invariant mdTable == JoinLines(header + RowLines(previous, results[..i]))
      invariant noChanges == NoneChanged(previous, results[..i])
    {
      var result := results[i];
      var delta, changed := Delta(if previous.None? then None else FindPrevious(previous.value, result.name), result.cusConsumed);
      if changed {
        noChanges := false;
      }
      assert delta == Label(previous, result);
      var row := RowLine(result.name, result.cusConsumed, delta);
      TableStep(header, previous, results, i);
      mdTable := mdTable + row + "\n";
      i := i + 1;
    }
    assert results[..i] == results;
  }

  /** The delta cell of one result as `write_results` works it out, and
      whether it clears `no_changes`. */
  method Delta(found: Option<U64>, cus: U64) returns (delta: string, changed: bool)
    ensures delta == DeltaLabel(found, cus)
    ensures changed <==> found != Some(cus)
    ensures changed <==> delta != "--"
  {
    DeltaLabelCases(found, cus);
    match found {
      case Some(prev) =>
        var d := AsI64(cus) - AsI64(prev);
        AsI64Injective(cus, prev);
        if d == 0 {
          delta, changed := "--", false;
        } else {
          delta, changed := if d > 0 then "+" + Grouped(d) else "-" + Grouped(-d), true;
        }
      case None =>
        delta, changed := "- new -", true;
    }
  }

  /** One more result adds its row to the table and keeps `no_changes`
      in step. */
  lemma TableStep(header: seq<string>, previous: Option<seq<BenchResult>>, results: seq<BenchResult>, i: nat)
    requires i < |results|
    ensures JoinLines(header + RowLines(previous, results[..i + 1]))
         == JoinLines(header + RowLines(previous, results[..i]))
            + RowLine(results[i].name, results[i].cusConsumed, Label(previous, results[i])) + "\n"
    ensures NoneChanged(previous, results[..i + 1])
        <==> NoneChanged(previous, results[..i]) && Unchanged(previous, results[i])
  {
    var row := RowLine(results[i].name, results[i].cusConsumed, Label(previous, results[i]));
    RowLinesSnoc(previous, results, i);
    JoinUnderHeader(header, RowLines(previous, results[..i]), row);
    NoneChangedSnoc(previous, results, i);
  }

  /** The rows of one more result are the rows so far and its row. */
  lemma RowLinesSnoc(previous: Option<seq<BenchResult>>, results: seq<BenchResult>, i: nat)
    requires i < |results|
    ensures RowLines(previous, results[..i + 1])
         == RowLines(previous, results[..i]) + [RowLine(results[i].name, results[i].cusConsumed, Label(previous, results[i]))]
  {
    var longer := RowLines(previous, results[..i + 1]);
    var shorter := RowLines(previous, results[..i]);
    assert forall k :: 0 <= k < i ==> longer[k] == shorter[k];
  }

  /** `no_changes` after one more result. */
  lemma NoneChangedSnoc(previous: Option<seq<BenchResult>>, results: seq<BenchResult>, i: nat)
    requires i < |results|
    ensures NoneChanged(previous, results[..i + 1])
        <==> NoneChanged(previous, results[..i]) && Unchanged(previous, results[i])
  {
    assert results[..i + 1][..i] == results[..i];
  }

  /** One more row under a header adds that row and a line break to the
      text. */
  lemma JoinUnderHeader(header: seq<string>, rows: seq<string>, row: string)
    ensures JoinLines(header + (rows + [row])) == JoinLines(header + rows) + row + "\n"
  {
    JoinLinesSnoc(header + rows, row);
    assert header + (rows + [row]) == header + rows + [row];
  }

  /** One more row of a table under its header adds that row and a line
      break to the text. */
  lemma JoinRowsStep(header: seq<string>, rows: seq<string>, row: nat)
    requires row < |rows|
    ensures JoinLines(header + rows[..row + 1]) == JoinLines(header + rows[..row]) + rows[row] + "\n"
  {
    assert rows[..row + 1] == rows[..row] + [rows[row]];
    JoinUnderHeader(header, rows[..row], rows[row]);
  }

  /** Adding a line adds it and a line break to the text. */
  lemma JoinLinesSnoc(lines: seq<string>, line: string)
    ensures JoinLines(lines + [line]) == JoinLines(lines) + line + "\n"
  {
    JoinLinesAppend(lines, [line]);
    assert JoinLines([line]) == line + "\n" + JoinLines([]);
  }

  // ---------------------------------------------------------------------
  // Reading the last table back.

  /** A line that ends the table: empty, or the next table's title. */
  predicate IsTableEnd(line: string) {
    line == [] || (|line| >= 4 && line[..4] == "####")
  }

  /** One row: the second and third `|`-separated cells, trimmed; the
      second parsed as a `u64`. */
  function ParseRow(line: string): Result<BenchResult, ParseFault> {
    var cells := Split(line, '|');
    if |cells| < 2 then Err(MissingName(line))
    else if |cells| < 3 then Err(MissingUnits(line))
    else
      match ParseU64(Trim(cells[2]))
      case None => Err(BadUnits(line))
      case Some(cus) => Ok(BenchResult(Trim(cells[1]), cus))
  }

  /** The rows up to the end of the table, each read by `parseRow`; the
      first row it rejects is the error. */
  function ReadRows(parseRow: string -> Result<BenchResult, ParseFault>, lines: seq<string>): Result<seq<BenchResult>, ParseFault>
    decreases |lines|
  {
    if lines == [] || IsTableEnd(lines[0]) then Ok([])
    else
      match parseRow(lines[0])
      case Err(fault) => Err(fault)
      case Ok(row) =>
        match ReadRows(parseRow, lines[1..])
        case Err(fault) => Err(fault)
        case Ok(rows) => Ok([row] + rows)
  }

  /** The rows of a table. */
  function ParseRows(lines: seq<string>): Result<seq<BenchResult>, ParseFault> {
    ReadRows(ParseRow, lines)
  }

  /** `parse_last_md_table`, on the lines after the six header lines. */
  function ParseTable(content: string): Result<seq<BenchResult>, ParseFault> {
    var lines := Lines(content);
    ParseRows(if |lines| <= 6 then [] else lines[6..])
  }

  /** The rows read so far, then the rest. */
  function Then(rows: seq<BenchResult>, rest: Result<seq<BenchResult>, ParseFault>): Result<seq<BenchResult>, ParseFault> {
    match rest
    case Err(fault) => Err(fault)
    case Ok(more) => Ok(rows + more)
  }

  /** `parse_last_md_table`. */
  method ParseLastMdTable(content: string) returns (r: Result<seq<BenchResult>, ParseFault>)
    ensures r == ParseTable(content)
  {
    var lines := Lines(content);
    var body := if |lines| <= 6 then [] else lines[6..];
    r := ReadTableRows(ParseRow, body);
  }

  /** The loop of `parse_last_md_table`, each line read by `parseRow`. */
  method ReadTableRows(parseRow: string -> Result<BenchResult, ParseFault>, lines: seq<string>)
    returns (r: Result<seq<BenchResult>, ParseFault>)
    ensures r == ReadRows(parseRow, lines)
  {
    var results: seq<BenchResult> := [];
    var i := 0;
    assert lines[0..] == lines;
    ThenNone(ReadRows(parseRow, lines));
    while i < |lines|
      invariant 0 <= i <= |lines|
      invariant Then(results, ReadRows(parseRow, lines[i..])) == ReadRows(parseRow, lines)
    {
      var line := lines[i];
      ReadStep(parseRow, lines, i, results);
      if IsTableEnd(line) {
        break;
      }
      var row := parseRow(line);
      if row.Err? {
        return Err(row.error);
      }
      results := results + [row.value];
      i := i + 1;
    }
    if i == |lines| {
      assert lines[i..] == [] && results + [] == results;
    }
    r := Ok(results);
  }

  /** One line of the loop: the table ends, a row is rejected, or a row is
      read and the loop goes on. */
  lemma ReadStep(parseRow: string -> Result<BenchResult, ParseFault>, lines: seq<string>, i: nat, results: seq<BenchResult>)
    requires i < |lines|
    ensures IsTableEnd(lines[i]) ==> Then(results, ReadRows(parseRow, lines[i..])) == Ok(results)
    ensures !IsTableEnd(lines[i]) && parseRow(lines[i]).Err? ==>
      Then(results, ReadRows(parseRow, lines[i..])) == Err(parseRow(lines[i]).error)
    ensures !IsTableEnd(lines[i]) && parseRow(lines[i]).Ok? ==>
      Then(results, ReadRows(parseRow, lines[i..])) == Then(results + [parseRow(lines[i]).value], ReadRows(parseRow, lines[i + 1..]))
  {
    assert lines[i..][0] == lines[i] && lines[i..][1..] == lines[i + 1..];
    assert results + [] == results;
    if !IsTableEnd(lines[i]) && parseRow(lines[i]).Ok? {
      ThenStep(results, parseRow(lines[i]).value, ReadRows(parseRow, lines[i + 1..]));
    }
  }

  lemma ThenNone(rest: Result<seq<BenchResult>, ParseFault>)
    ensures Then([], rest) == rest
  {
    if rest.Ok? {
      assert [] + rest.value == rest.value;
    }
  }

  lemma ThenStep(rows: seq<BenchResult>, row: BenchResult, rest: Result<seq<BenchResult>, ParseFault>)
    ensures Then(rows, match rest case Err(f) => Err(f) case Ok(more) => Ok([row] + more)) == Then(rows + [row], rest)
  {
    if rest.Ok? {
      assert rows + ([row] + rest.value) == rows + [row] + rest.value;
    }
  }

  /** A name without `|` and without whitespace at its ends, and a delta
      without `|`: the row reads back as its name and units. */
  lemma ParseRowLine(name: string, cus: U64, delta: string)
    requires '|' !in name && Trimmed(name) && '|' !in delta
    ensures ParseRow(RowLine(name, cus, delta)) == Ok(BenchResult(name, cus))
  {
    var digits := Digits(cus);
    assert '|' !in digits && Trimmed(digits) by {
      assert forall i :: 0 <= i < |digits| ==> IsDigit(digits[i]);
    }
    var cells := [Pad(name), Pad(digits), Pad(delta)];
    assert RowLine(name, cus, delta) == Open(cells) + "|" + "";
    SplitOpen(cells, "");
    assert Split("", '|') == [""];
    var pieces := Split(RowLine(name, cus, delta), '|');
    assert pieces[1] == Pad(name) && pieces[2] == Pad(digits);
    TrimPadded(name);
    TrimPadded(digits);
    ParseDigits(cus);
  }

  /** Lines that each read back as a row, followed by an empty line, read
      back in order. */
  lemma {:induction false} ReadRowsUntilBlank(parseRow: string -> Result<BenchResult, ParseFault>,
                                              lines: seq<string>, rows: seq<BenchResult>)
    requires |rows| < |lines| && lines[|rows|] == ""
    requires forall i :: 0 <= i < |rows| ==> lines[i] != [] && lines[i][0] == '|' && parseRow(lines[i]) == Ok(rows[i])
    ensures ReadRows(parseRow, lines) == Ok(rows)
    decreases |rows|
  {
    if rows != [] {
      assert forall i :: 0 <= i < |lines| - 1 ==> lines[1..][i] == lines[i + 1];
      ReadRowsUntilBlank(parseRow, lines[1..], rows[1..]);
      BarNotTableEnd(lines[0]);
      assert [rows[0]] + rows[1..] == rows;
    }
  }

  lemma BarNotTableEnd(line: string)
    requires |line| > 0 && line[0] == '|'
    ensures !IsTableEnd(line)
  {
    if |line| >= 4 {
      assert line[..4][0] == '|';
    }
  }

  /** A row has no line break and does not end in a carriage return. */
  lemma RowLinePlain(name: string, cus: U64, delta: string)
    requires '\n' !in name && '\n' !in delta
    ensures '\n' !in RowLine(name, cus, delta)
    ensures StripCR(RowLine(name, cus, delta)) == RowLine(name, cus, delta)
  {
    var digits := Digits(cus);
    assert '\n' !in digits by {
      assert forall i :: 0 <= i < |digits| ==> IsDigit(digits[i]);
    }
    var cells := [Pad(name), Pad(digits), Pad(delta)];
    OpenWithout(cells, '\n');
    var line := RowLine(name, cus, delta);
    assert line[|line| - 1] == '|';
  }

  /** A character other than `|` that no cell holds is not in the row. */
  lemma {:induction false} OpenWithout(cells: seq<string>, c: char)
    requires c != '|' && forall i :: 0 <= i < |cells| ==> c !in cells[i]
    ensures c !in Open(cells)
    decreases |cells|
  {
    if cells != [] {
      assert forall i :: 0 <= i < |cells| - 1 ==> cells[..|cells| - 1][i] == cells[i];
      OpenWithout(cells[..|cells| - 1], c);
    }
  }

  /** What `write_results` writes reads back as the results it was given,
      in order, whatever the file held before, when the header has no line
      break and the names have no `|`, no line break and no whitespace at
      their ends. */
  lemma WrittenTableReadsBack(tableHeader: string, solanaVersion: string, previous: Option<seq<BenchResult>>,
                              results: seq<BenchResult>, existing: Option<string>)
    requires '\n' !in tableHeader && '\n' !in solanaVersion
    requires forall i :: 0 <= i < |results| ==> '|' !in results[i].name && '\n' !in results[i].name && Trimmed(results[i].name)
    ensures ParseTable(Prepend(NewTable(tableHeader, solanaVersion, previous, results), existing)) == Ok(results)
  {
    var rest := existing.GetOr("");
    var header := HeaderLines(tableHeader, solanaVersion);
    var rows := RowLines(previous, results);
    assert Prepend(NewTable(tableHeader, solanaVersion, previous, results), existing) == JoinLines(header + rows + [""]) + rest;
    RowLinesPlain(previous, results);
    HeaderLinesPlain(tableHeader, solanaVersion);
    ParseTableAfterHeader(header, rows, rest);
    RowLinesReadBack(previous, results);
    ReadRowsThenBlank(rows, Lines(rest), results);
  }

  /** The table parser reads the rows after the six header lines. */
  lemma ParseTableAfterHeader(header: seq<string>, rows: seq<string>, rest: string)
    requires |header| == 6 && forall i :: 0 <= i < 6 ==> '\n' !in header[i]
    requires forall i :: 0 <= i < |rows| ==> '\n' !in rows[i] && StripCR(rows[i]) == rows[i]
    ensures ParseTable(JoinLines(header + rows + [""]) + rest) == ParseRows(rows + [""] + Lines(rest))
  {
    LinesAfterHeader(header, rows, rest);
  }

  /** Rows that each read back as a result, then a blank line, read back
      as those results. */
  lemma ReadRowsThenBlank(rows: seq<string>, after: seq<string>, results: seq<BenchResult>)
    requires |rows| == |results|
    requires forall i :: 0 <= i < |results| ==> rows[i] != [] && rows[i][0] == '|' && ParseRow(rows[i]) == Ok(results[i])
    ensures ParseRows(rows + [""] + after) == Ok(results)
  {
    var body := rows + [""] + after;
    assert body[|results|] == "" && forall i :: 0 <= i < |results| ==> body[i] == rows[i];
    ReadRowsUntilBlank(ParseRow, body, results);
  }

  lemma RowLinesReadBack(previous: Option<seq<BenchResult>>, results: seq<BenchResult>)
    requires forall i :: 0 <= i < |results| ==> '|' !in results[i].name && Trimmed(results[i].name)
    ensures forall i :: 0 <= i < |results| ==>
      RowLines(previous, results)[i] != [] && RowLines(previous, results)[i][0] == '|'
      && ParseRow(RowLines(previous, results)[i]) == Ok(results[i])
  {
    forall i | 0 <= i < |results|
      ensures RowLines(previous, results)[i] != [] && RowLines(previous, results)[i][0] == '|'
              && ParseRow(RowLines(previous, results)[i]) == Ok(results[i])
    {
      var r := results[i];
      DeltaLabelPlain(if previous.None? then None else FindPrevious(previous.value, r.name), r.cusConsumed);
      ParseRowLine(r.name, r.cusConsumed, Label(previous, r));
    }
  }

  /** After six header lines, the lines of a joined text are the joined
      lines, an empty line and the lines of what follows, when no line
      holds a line break and no row ends in a carriage return. */
  lemma LinesAfterHeader(header: seq<string>, rows: seq<string>, rest: string)
    requires |header| == 6 && forall i :: 0 <= i < 6 ==> '\n' !in header[i]
    requires forall i :: 0 <= i < |rows| ==> '\n' !in rows[i] && StripCR(rows[i]) == rows[i]
    ensures var lines := Lines(JoinLines(header + rows + [""]) + rest);
      |lines| > 6 && lines[6..] == rows + [""] + Lines(rest)
  {
    var all := header + rows + [""];
    TableLinesPlain(header, rows);
    LinesOfJoin(all, rest);
    TableLinesStripped(header, rows);
    DropAppended(StripAll(all), Lines(rest), 6);
  }

  /** No line of a table holds a line break when neither its header nor
      its rows do. */
  lemma TableLinesPlain(header: seq<string>, rows: seq<string>)
    requires |header| == 6 && forall i :: 0 <= i < 6 ==> '\n' !in header[i]
    requires forall i :: 0 <= i < |rows| ==> '\n' !in rows[i]
    ensures var all := header + rows + [""]; forall i :: 0 <= i < |all| ==> '\n' !in all[i]
  {
    var all := header + rows + [""];
    forall i | 0 <= i < |all| ensures '\n' !in all[i] {
      if i < 6 {
        assert all[i] == header[i];
      } else if i < 6 + |rows| {
        assert all[i] == rows[i - 6];
      }
    }
  }

  /** Stripping carriage returns leaves the rows of a table as they are. */
  lemma TableLinesStripped(header: seq<string>, rows: seq<string>)
    requires |header| == 6
    requires forall i :: 0 <= i < |rows| ==> StripCR(rows[i]) == rows[i]
    ensures StripAll(header + rows + [""])[6..] == rows + [""]
  {
    var all := header + rows + [""];
    var stripped := StripAll(all);
    forall i | 0 <= i < |rows| ensures stripped[6 + i] == rows[i] {
      assert all[6 + i] == rows[i];
    }
    assert stripped[6 + |rows|] == StripCR("");
  }

  /** Dropping a prefix of the first part of a concatenation. */
  lemma DropAppended(a: seq<string>, b: seq<string>, n: nat)
    requires n <= |a|
    ensures (a + b)[n..] == a[n..] + b
  { }

  lemma RowLinesPlain(previous: Option<seq<BenchResult>>, results: seq<BenchResult>)
    requires forall i :: 0 <= i < |results| ==> '\n' !in results[i].name
    ensures forall i :: 0 <= i < |results| ==>
      '\n' !in RowLines(previous, results)[i] && StripCR(RowLines(previous, results)[i]) == RowLines(previous, results)[i]
  {
    forall i | 0 <= i < |results|
      ensures '\n' !in RowLines(previous, results)[i] && StripCR(RowLines(previous, results)[i]) == RowLines(previous, results)[i]
    {
      DeltaLabelPlain(if previous.None? then None else FindPrevious(previous.value, results[i].name), results[i].cusConsumed);
      RowLinePlain(results[i].name, results[i].cusConsumed, Label(previous, results[i]));
    }
  }

  lemma HeaderLinesPlain(tableHeader: string, solanaVersion: string)
    requires '\n' !in tableHeader && '\n' !in solanaVersion
    ensures forall i :: 0 <= i < 6 ==> '\n' !in HeaderLines(tableHeader, solanaVersion)[i]
  {
  }

  // ---------------------------------------------------------------------
  // The matrix table.

  /** `MolluskComputeUnitMatrixBenchResult`: one program's results,
      collected one at a time. */
  class MatrixBenchResult {
    const programName: string
    var results: seq<BenchResult>

    constructor (programName: string)
      ensures this.programName == programName && results == []
    {
      this.programName := programName;
      results := [];
    }

    /** `add_result`. */
    method AddResult(name: string, result: InstructionResult)
      modifies this
      ensures results == old(results) + [NewBenchResult(name, result)]
    {
      results := results + [NewBenchResult(name, result)];
    }

    /** The program's column as `mx_write_results` reads it. */
    function Column(): MatrixColumn
      reads this
    {
      MatrixColumn(programName, results)
    }
  }

  datatype MatrixColumn = MatrixColumn(programName: string, results: seq<BenchResult>)

  /** The header cell of one program, `` CU (`name`) ``. */
  function ProgramCell(programName: string): string {
    " CU (`" + programName + "`) "
  }

  /** The header cells: ` Name `, then one per program. */
  function HeaderCells(columns: seq<MatrixColumn>): (r: seq<string>)
    ensures |r| == |columns| + 1 && r[0] == " Name "
    ensures forall i :: 0 <= i < |columns| ==> r[i + 1] == ProgramCell(columns[i].programName)
  {
    [" Name "] + seq(|columns|, i requires 0 <= i < |columns| => ProgramCell(columns[i].programName))
  }

  /** `"|----------".repeat(n) + "|"`. */
  function Separator(n: nat): string {
    Bars(seq(n, _ => "----------"))
  }

  /** The lines of `mx_md_header`'s format string. */
  function MxHeaderLines(tableHeader: string, solanaVersion: string, columns: seq<MatrixColumn>): (r: seq<string>)
    ensures |r| == 6
  {
    ["#### " + tableHeader, "", "Solana CLI Version: " + solanaVersion, "", Bars(HeaderCells(columns)), Separator(|columns| + 1)]
  }

  /** One more cell of a prefix adds a bar and that cell to its row. */
  lemma OpenPrefixStep(cells: seq<string>, k: nat)
    requires k < |cells|
    ensures Open(cells[..k + 1]) == Open(cells[..k]) + "|" + cells[k]
  {
    assert cells[..k + 1][..k] == cells[..k];
  }

  /** `mx_md_header`. */
  method MxMdHeader(tableHeader: string, solanaVersion: string, columns: seq<MatrixColumn>) returns (header: string)
    ensures header == JoinLines(MxHeaderLines(tableHeader, solanaVersion, columns))
  {
    var headerRow := "|" + " Name ";
    assert headerRow == Open(HeaderCells(columns)[..1]);
    var i := 0;
    while i < |columns|
      invariant 0 <= i <= |columns|
      invariant headerRow == Open(HeaderCells(columns)[..i + 1])
    {
      OpenPrefixStep(HeaderCells(columns), i + 1);
      headerRow := headerRow + "|" + ProgramCell(columns[i].programName);
      i := i + 1;
    }
    assert HeaderCells(columns)[..i + 1] == HeaderCells(columns);
    headerRow := headerRow + "|";
    header := JoinLines(["#### " + tableHeader, "", "Solana CLI Version: " + solanaVersion, "", headerRow, Separator(|columns| + 1)]);
  }

  /** The header row has a bar per program plus the two around the name
      cell, as many as the separator, when program names have no `|`:
      every column has its separator cell. */
  lemma HeaderMatchesSeparator(columns: seq<MatrixColumn>)
    requires forall i :: 0 <= i < |columns| ==> '|' !in columns[i].programName
    ensures Count(Bars(HeaderCells(columns)), '|') == |columns| + 2
    ensures Count(Separator(|columns| + 1), '|') == |columns| + 2
  {
    var cells := HeaderCells(columns);
    forall i | 0 <= i < |cells| ensures '|' !in cells[i] {
      if i > 0 {
        assert cells[i] == ProgramCell(columns[i - 1].programName);
      }
    }
    CountBars(cells);
    CountBars(seq(|columns| + 1, _ => "----------"));
  }

  /** The cells of row `row` after the name: `` cus `` for every program
      that has a result at that index, in program order. */
  function RowCells(columns: seq<MatrixColumn>, row: nat): (r: seq<string>)
    ensures |r| <= |columns|
    ensures forall i :: 0 <= i < |r| ==> '|' !in r[i]
    decreases |columns|
  {
    if columns == [] then []
    else
      var last := columns[|columns| - 1];
      RowCells(columns[..|columns| - 1], row)
        + (if row < |last.results| then [Pad(Digits(last.results[row].cusConsumed))] else [])
  }

  /** A row has a cell for every program exactly when every program has a
      result at that index. */
  lemma {:induction false} RowCellsFull(columns: seq<MatrixColumn>, row: nat)
    ensures |RowCells(columns, row)| == |columns| <==> forall i :: 0 <= i < |columns| ==> row < |columns[i].results|
    decreases |columns|
  {
    if columns != [] {
      var init := columns[..|columns| - 1];
      RowCellsFull(init, row);
      assert forall i :: 0 <= i < |init| ==> init[i] == columns[i];
    }
  }

  /** When every program has a result at index `row`, cell `i` holds the
      units of program `i`'s result there. */
  lemma {:induction false} RowCellsOfFullRow(columns: seq<MatrixColumn>, row: nat)
    requires forall i :: 0 <= i < |columns| ==> row < |columns[i].results|
    ensures |RowCells(columns, row)| == |columns|
    ensures forall i :: 0 <= i < |columns| ==>
      RowCells(columns, row)[i] == Pad(Digits(columns[i].results[row].cusConsumed))
    decreases |columns|
  {
    if columns != [] {
      var init := columns[..|columns| - 1];
      assert forall i :: 0 <= i < |init| ==> init[i] == columns[i];
      RowCellsOfFullRow(init, row);
    }
  }

  /** Row `row` of the matrix: the first program's instruction name, then
      the cells. */
  function MatrixRow(columns: seq<MatrixColumn>, row: nat): string
    requires columns != [] && row < |columns[0].results|
  {
    Bars([Pad(columns[0].results[row].name)] + RowCells(columns, row))
  }

  /** A row has as many bars as the header exactly when every program has
      a result at that index, when the instruction name has no `|`. */
  lemma MatrixRowAligned(columns: seq<MatrixColumn>, row: nat)
    requires columns != [] && row < |columns[0].results|
    requires '|' !in columns[0].results[row].name
    ensures Count(MatrixRow(columns, row), '|') == |columns| + 2
        <==> forall i :: 0 <= i < |columns| ==> row < |columns[i].results|
  {
    var cells := [Pad(columns[0].results[row].name)] + RowCells(columns, row);
    assert forall i :: 0 <= i < |cells| ==> '|' !in cells[i];
    CountBars(cells);
    RowCellsFull(columns, row);
  }

  /** The rows, one per result of the first program. */
  function MatrixRows(columns: seq<MatrixColumn>): (r: seq<string>)
    requires columns != []
    ensures |r| == |columns[0].results|
    ensures forall row :: 0 <= row < |r| ==> r[row] == MatrixRow(columns, row)
  {
    seq(|columns[0].results|, row requires 0 <= row < |columns[0].results| => MatrixRow(columns, row))
  }

  /** The table `mx_write_results` prepends. */
  function MxTable(tableHeader: string, solanaVersion: string, columns: seq<MatrixColumn>): string
    requires columns != []
  {
    JoinLines(MxHeaderLines(tableHeader, solanaVersion, columns) + MatrixRows(columns) + [""])
  }

  /** `mx_write_results`: nothing for no programs; otherwise the table
      prepended to `mx_compute_units.md` (`existing`). */
  method MxWriteResults(tableHeader: string, solanaVersion: string, columns: seq<MatrixColumn>, existing: Option<string>)
    returns (r: Option<string>)
    ensures columns == [] ==> r.None?
    ensures columns != [] ==> r == Some(Prepend(MxTable(tableHeader, solanaVersion, columns), existing))
  {
    if columns == [] {
      return None;
    }
    var table := MxMdHeader(tableHeader, solanaVersion, columns);
    ghost var header := MxHeaderLines(tableHeader, solanaVersion, columns);
    ghost var rows := MatrixRows(columns);
    assert header + rows[..0] == header;
    var first := columns[0];
    var row := 0;
    while row < |first.results|
      invariant 0 <= row <= |first.results|
      invariant table == JoinLines(header + rows[..row])
    {
      var line := MxRow(columns, row);
      JoinRowsStep(header, rows, row);
      table := table + line + "\n";
      row := row + 1;
    }
    assert rows[..row] == rows;
    JoinLinesSnoc(header + rows, "");
    assert table + "" + "\n" == table + "\n";
    table := table + "\n";
    r := Some(Prepend(table, existing));
  }

  /** One row of `mx_write_results`: the name cell, then a cell for each
      program that has a result at this index, then the closing bar. */
  method MxRow(columns: seq<MatrixColumn>, row: nat) returns (line: string)
    requires columns != [] && row < |columns[0].results|
    ensures line == MatrixRow(columns, row)
  {
    ghost var name := Pad(columns[0].results[row].name);
    line := "|" + Pad(columns[0].results[row].name);
    assert line == Open([name] + RowCells(columns[..0], row));
    var k := 0;
    while k < |columns|
      invariant 0 <= k <= |columns|
      invariant line == Open([name] + RowCells(columns[..k], row))
    {
      RowCellsStep(columns, row, k, name);
      if row < |columns[k].results| {
        line := line + "|" + Pad(Digits(columns[k].results[row].cusConsumed));
      }
      k := k + 1;
    }
    assert columns[..k] == columns;
    line := line + "|";
  }

  /** One more program adds its cell to a row when it has a result there,
      and nothing otherwise. */
  lemma RowCellsStep(columns: seq<MatrixColumn>, row: nat, k: nat, name: string)
    requires k < |columns|
    ensures Open([name] + RowCells(columns[..k + 1], row))
         == if row < |columns[k].results|
            then Open([name] + RowCells(columns[..k], row)) + "|" + Pad(Digits(columns[k].results[row].cusConsumed))
            else Open([name] + RowCells(columns[..k], row))
  {
    assert columns[..k + 1][..k] == columns[..k];
    var cells := [name] + RowCells(columns[..k], row);
    if row < |columns[k].results| {
      var cell := Pad(Digits(columns[k].results[row].cusConsumed));
      assert [name] + RowCells(columns[..k + 1], row) == cells + [cell];
      assert (cells + [cell])[..|cells|] == cells;
    } else {
      assert RowCells(columns[..k + 1], row) == RowCells(columns[..k], row);
    }
  }

}
