/**
 * `handleFilter`: which records the viewer shows for the four filter
 * inputs. The level/message step runs when either of its two inputs is
 * non-empty and then tests both; the VU and ITER steps each run when their
 * input is non-empty. Every step keeps the order of the records.
 */
module Filtering {
  import opened Options
  import opened Text
  import opened Numbers
  import opened Seqs
  import opened Records

  /** The text held by the level, message, VU and ITER inputs. */
  datatype FilterState = FilterState(level: string, message: string, vu: string, iter: string)

  const NoFilters := FilterState("", "", "", "")

  /** `levelFilter || msgFilter` */
  predicate TextStepActive(f: FilterState) {
    f.level != "" || f.message != ""
  }

  /**
   * `item.level?.includes(levelFilter) && item.message?.includes(msgFilter)`:
   * an empty filter text is contained in every string, and a record without
   * a message never passes.
   */
  predicate MatchesText(r: LogRecord, f: FilterState) {
    Contains(r.level, f.level) && r.message.Some? && Contains(r.message.value, f.message)
  }

  /** `item?.VU == vuFilter`: the record has a number and the text stands for that number. */
  predicate MatchesNumber(field: Option<int>, text: string) {
    field.Some? && IntegerValue(text) == Some(field.value)
  }

  /** A record passes every step that the filter inputs switch on. */
  predicate Keeps(r: LogRecord, f: FilterState) {
    (TextStepActive(f) ==> MatchesText(r, f)) &&
    (f.vu != "" ==> MatchesNumber(r.vu, f.vu)) &&
    (f.iter != "" ==> MatchesNumber(r.iter, f.iter))
  }

  function TextTest(f: FilterState): LogRecord -> bool {
    (r: LogRecord) => MatchesText(r, f)
  }

  function VuTest(text: string): LogRecord -> bool {
    (r: LogRecord) => MatchesNumber(r.vu, text)
  }

  function IterTest(text: string): LogRecord -> bool {
    (r: LogRecord) => MatchesNumber(r.iter, text)
  }

  function KeepTest(f: FilterState): LogRecord -> bool {
    (r: LogRecord) => Keeps(r, f)
  }

  /**
   * The records shown for filter inputs `f`: an order-preserving
   * subsequence of `logs` holding exactly the records that pass every
   * active step.
   */
  function Filter(logs: seq<LogRecord>, f: FilterState): (shown: seq<LogRecord>)
    ensures IsSubsequence(shown, logs)
    ensures forall r :: r in shown <==> r in logs && Keeps(r, f)
    ensures TextStepActive(f) ==> forall r :: r in shown ==>
      r.message.Some? && Contains(r.level, f.level) && Contains(r.message.value, f.message)
    ensures f.vu != "" ==> forall r :: r in shown ==> r.vu.Some? && IntegerValue(f.vu) == Some(r.vu.value)
    ensures f.iter != "" ==> forall r :: r in shown ==> r.iter.Some? && IntegerValue(f.iter) == Some(r.iter.value)
  {
    Select(logs, KeepTest(f))
  }

  /** With all four inputs empty every record is shown, in its order. */
  lemma FilterNoFilters(logs: seq<LogRecord>, f: FilterState)
    requires f.level == "" && f.message == "" && f.vu == "" && f.iter == ""
    ensures Filter(logs, f) == logs
  {
    SelectAll(logs, KeepTest(f));
  }

  /** Filtering the shown records again with the same inputs shows the same records. */
  lemma FilterIdempotent(logs: seq<LogRecord>, f: FilterState)
    ensures Filter(Filter(logs, f), f) == Filter(logs, f)
  {
    SelectIdempotent(logs, KeepTest(f));
  }

  /** The filter is stable: it decides record by record, so it distributes over concatenation. */
  lemma FilterAppend(a: seq<LogRecord>, b: seq<LogRecord>, f: FilterState)
    ensures Filter(a + b, f) == Filter(a, f) + Filter(b, f)
  {
    SelectAppend(a, b, KeepTest(f));
  }

  /**
   * A VU input holding the numeral of `n` keeps, of the records the other
   * inputs let through, exactly those whose VU is `n`.
   */
  lemma VuFilterExact(logs: seq<LogRecord>, f: FilterState, n: int)
    requires f.vu == ShowInt(n)
    ensures forall r :: r in Filter(logs, f) <==> r in logs && r.vu == Some(n) && Keeps(r, f.(vu := ""))
  {
    ShowIntValue(n);
  }

  /** The same for the ITER input. */
  lemma IterFilterExact(logs: seq<LogRecord>, f: FilterState, n: int)
    requires f.iter == ShowInt(n)
    ensures forall r :: r in Filter(logs, f) <==> r in logs && r.iter == Some(n) && Keeps(r, f.(iter := ""))
  {
    ShowIntValue(n);
  }

  /**
   * A VU input of plain digits, leading zeros included (`"007"`), keeps
   * exactly the records whose VU is the number those digits spell.
   */
  lemma VuFilterDigits(logs: seq<LogRecord>, f: FilterState)
    requires f.vu != [] && AllDigits(f.vu)
    ensures forall r :: r in Filter(logs, f) <==>
      r in logs && r.vu == Some(DigitsValue(f.vu)) && Keeps(r, f.(vu := ""))
  {
    DigitsRead(f.vu);
  }

  /** A VU input with a non-zero fraction (`"1.5"`) stands for no integer, so nothing is shown. */
  lemma FractionalVuFilterShowsNothing(logs: seq<LogRecord>, f: FilterState, d: string, frac: string)
    requires AllDigits(d) && AllDigits(frac) && !AllZeros(frac)
    requires f.vu == d + "." + frac
    ensures Filter(logs, f) == []
  {
    FractionRead(d, frac);
    SelectNone(logs, KeepTest(f));
  }

  /** The input `0` is non-empty, so it is an active filter: only records with VU 0 are shown. */
  lemma ZeroVuFilterIsActive(logs: seq<LogRecord>, f: FilterState)
    requires f == FilterState("", "", "0", "")
    ensures forall r :: r in Filter(logs, f) <==> r in logs && r.vu == Some(0)
  {
    assert ShowInt(0) == "0";
    VuFilterExact(logs, f, 0);
  }

  /**
   * Choosing a level alone still runs the message test with an empty text,
   * so a record that matches the level but has no message is hidden.
   */
  lemma LevelFilterHidesRecordsWithoutMessage(r: LogRecord, f: FilterState)
    requires f.level != "" && f.level == r.level && r.message.None?
    ensures Filter([r], f) == []
  {
  }

  /** Records `ERROR` and `WARN` under level input `WARN` show only the `WARN` one. */
  lemma LevelFilterExample(e: LogRecord, w: LogRecord)
    requires e.level == "ERROR" && w.level == "WARN" && w.message.Some?
    ensures Filter([e, w], FilterState("WARN", "", "", "")) == [w]
  {
    var f := FilterState("WARN", "", "", "");
    forall i: nat | i <= 5 ensures !MatchAt("ERROR", "WARN", i) {
      if i + 4 <= 5 {
        assert "ERROR"[i..i + 4][0] == "ERROR"[i];
      }
    }
    assert MatchAt("WARN", "WARN", 0);
    assert MatchAt(w.message.value, "", 0);
    assert !Keeps(e, f) && Keeps(w, f);
    assert [e, w][1..] == [w];
  }
}
