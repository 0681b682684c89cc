/**
 * The page component's state and its handlers: loading a file, changing a
 * filter input, clearing the filters. After every handler the shown records
 * are recomputed from scratch, as the component's effect does whenever the
 * records or a filter input change.
 */
module Viewer {
  import opened Records
  import opened Seqs
  import opened Parser
  import opened Filtering

  class LogViewer {
    var logs: seq<LogRecord>
    var levelFilter: string
    var msgFilter: string
    var vuFilter: string
    var iterFilter: string
    var filteredLogs: seq<LogRecord>

    /** The four filter inputs as one value. */
    function Filters(): FilterState
      reads this
    {
      FilterState(levelFilter, msgFilter, vuFilter, iterFilter)
    }

    /** The shown records are the loaded records under the current inputs. */
    ghost predicate Valid()
      reads this
    {
      filteredLogs == Filter(logs, Filters())
    }

    /** The initial state: no records, every input empty. */
    constructor ()
      ensures Valid()
      ensures logs == [] && Filters() == NoFilters && filteredLogs == []
    {
      logs := [];
      levelFilter, msgFilter, vuFilter, iterFilter := "", "", "", "";
      filteredLogs := [];
    }

    /**
     * `handleFilter`: narrow the records step by step (level and message,
     * then VU, then ITER) and store the result as the shown records.
     */
    method HandleFilter()
      modifies this`filteredLogs
      ensures Valid()
    {
      var f := Filters();
      ghost var upToText: LogRecord -> bool :=
        r => TextStepActive(f) ==> MatchesText(r, f);
      ghost var upToVu: LogRecord -> bool :=
        r => upToText(r) && (f.vu != "" ==> MatchesNumber(r.vu, f.vu));

      var data := logs;
      if levelFilter != "" || msgFilter != "" {
        data := Select(logs, TextTest(f));
        SelectAgree(logs, TextTest(f), upToText);
      } else {
        SelectAll(logs, upToText);
      }
      assert data == Select(logs, upToText);

      if vuFilter != "" {
        data := Select(data, VuTest(vuFilter));
        SelectThen(logs, upToText, VuTest(vuFilter), upToVu);
      } else {
        SelectAgree(logs, upToText, upToVu);
      }
      assert data == Select(logs, upToVu);

      if iterFilter != "" {
        data := Select(data, IterTest(iterFilter));
        SelectThen(logs, upToVu, IterTest(iterFilter), KeepTest(f));
      } else {
        SelectAgree(logs, upToVu, KeepTest(f));
      }
      filteredLogs := data;
    }

    /**
     * The end of `reader.onload`: the parsed records replace the old ones
     * and the four inputs are emptied, so every record is shown.
     */
    method ReplaceLogs(records: seq<LogRecord>)
      modifies this
      ensures logs == records
      ensures Filters() == NoFilters
      ensures Valid() && filteredLogs == logs
    {
      logs := records;
      levelFilter, msgFilter, vuFilter, iterFilter := "", "", "", "";
      HandleFilter();
      FilterNoFilters(logs, Filters());
    }

    /** `reader.onload`: parse the file text, then replace the records and empty the inputs. */
    method LoadFile(text: string, codec: Codec)
      modifies this
      ensures logs == Parse(text, codec)
      ensures Filters() == NoFilters
      ensures Valid() && filteredLogs == logs
    {
      var records := Parse(text, codec);
      ReplaceLogs(records);
    }

    /** The Clear button: the four inputs are emptied and every record is shown again. */
    method Clear()
      modifies this
      ensures logs == old(logs)
      ensures Filters() == NoFilters
      ensures Valid() && filteredLogs == logs
    {
      levelFilter, msgFilter, vuFilter, iterFilter := "", "", "", "";
      HandleFilter();
      FilterNoFilters(logs, Filters());
    }

    /** The level select changes; nothing else does. */
    method SetLevelFilter(value: string)
      modifies this
      ensures logs == old(logs)
      ensures Filters() == old(Filters()).(level := value)
      ensures Valid()
    {
      levelFilter := value;
      HandleFilter();
    }

    /** The message input changes; nothing else does. */
    method SetMessageFilter(value: string)
      modifies this
      ensures logs == old(logs)
      ensures Filters() == old(Filters()).(message := value)
      ensures Valid()
    {
      msgFilter := value;
      HandleFilter();
    }

    /** The VU input changes; nothing else does. */
    method SetVuFilter(value: string)
      modifies this
      ensures logs == old(logs)
      ensures Filters() == old(Filters()).(vu := value)
      ensures Valid()
    {
      vuFilter := value;
      HandleFilter();
    }

    /** The ITER input changes; nothing else does. */
    method SetIterFilter(value: string)
      modifies this
      ensures logs == old(logs)
      ensures Filters() == old(Filters()).(iter := value)
      ensures Valid()
    {
      iterFilter := value;
      HandleFilter();
    }
  }
}
