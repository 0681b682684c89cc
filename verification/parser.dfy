/**
 * The file-load pipeline: split the text into lines, drop blank lines,
 * decode and normalise each line on its own, and keep the lines that did
 * not throw, in file order.
 */
module Parser {
  import opened Options
  import opened Text
  import opened Seqs
  import opened Records

  /** `iso.replace('T', ' ').replace('.000Z', '')` */
  function FormatTime(iso: string): string {
    ReplaceFirst(ReplaceFirst(iso, "T", " "), ".000Z", "")
  }

  /** The shape `YYYY-MM-DDTHH:mm:ss.sssZ` that `toISOString` gives for years 0 to 9999. */
  predicate IsIsoShape(iso: string) {
    |iso| == 24 &&
    iso[4] == '-' && iso[7] == '-' && iso[10] == 'T' && iso[13] == ':' && iso[16] == ':' &&
    iso[19] == '.' && iso[23] == 'Z' &&
    forall k :: 0 <= k < 23 && k != 4 && k != 7 && k != 10 && k != 13 && k != 16 && k != 19 ==>
      '0' <= iso[k] <= '9'
  }

  /** The `T` of an ISO timestamp is its first, at index 10. */
  lemma IsoSeparator(iso: string)
    requires IsIsoShape(iso)
    ensures ReplaceFirst(iso, "T", " ") == iso[..10] + " " + iso[11..]
  {
    forall j: nat | j < 10 ensures !MatchAt(iso, "T", j) {
      assert iso[j..j + 1] == [iso[j]];
    }
    assert iso[10..11] == [iso[10]];
    assert FirstMatch(iso, "T", 10);
  }

  /** After the `T` becomes a space, the only `.` of an ISO timestamp is still at index 19. */
  lemma SpacedIso(iso: string, spaced: string)
    requires IsIsoShape(iso) && spaced == iso[..10] + " " + iso[11..]
    ensures |spaced| == 24
    ensures forall j :: 0 <= j < 24 && j != 19 ==> spaced[j] != '.'
    ensures spaced[19..24] == iso[19..]
    ensures spaced[..19] == iso[..10] + " " + iso[11..19]
    ensures spaced == iso[..10] + " " + iso[11..19] + iso[19..]
  {
    assert forall j :: 0 <= j < 24 && j != 10 ==> spaced[j] == iso[j];
    assert iso[11..] == iso[11..19] + iso[19..];
  }

  /** In a text of 24 characters whose only `.` is at index 19, `.000Z` can only start there. */
  lemma MillisecondsOnlyAt19(spaced: string)
    requires |spaced| == 24
    requires forall j :: 0 <= j < 24 && j != 19 ==> spaced[j] != '.'
    ensures forall j: nat :: j != 19 ==> !MatchAt(spaced, ".000Z", j)
  {
    forall j: nat | j != 19 && j + 5 <= 24 ensures !MatchAt(spaced, ".000Z", j) {
      assert spaced[j..j + 5][0] == spaced[j];
    }
  }

  /** Removing `.000Z` from a 24-character text whose only `.` is at index 19. */
  lemma RemoveMilliseconds(spaced: string)
    requires |spaced| == 24
    requires forall j :: 0 <= j < 24 && j != 19 ==> spaced[j] != '.'
    ensures ReplaceFirst(spaced, ".000Z", "") ==
      if spaced[19..24] == ".000Z" then spaced[..19] else spaced
  {
    MillisecondsOnlyAt19(spaced);
    if spaced[19..24] == ".000Z" {
      assert FirstMatch(spaced, ".000Z", 19);
      assert spaced[..19] + "" + spaced[24..] == spaced[..19];
    } else {
      assert !Contains(spaced, ".000Z");
    }
  }

  /** The milliseconds part `.sssZ` is `.000Z` exactly when its digits are `000`. */
  lemma ZeroMilliseconds(ms: string)
    requires |ms| == 5 && ms[0] == '.' && ms[4] == 'Z'
    ensures ms == ".000Z" <==> ms[1..4] == "000"
  {
    if ms[1..4] == "000" {
      assert ms == [ms[0]] + ms[1..4] + [ms[4]];
    }
  }

  /**
   * For an ISO timestamp the date and the clock are joined by a space; the
   * milliseconds disappear when they are `000` and stay, with the `Z`,
   * otherwise.
   */
  lemma FormatIsoTime(iso: string)
    requires IsIsoShape(iso)
    ensures FormatTime(iso) ==
      iso[..10] + " " + iso[11..19] + (if iso[20..23] == "000" then "" else iso[19..])
  {
    var date := iso[..10] + " " + iso[11..19];
    var spaced := iso[..10] + " " + iso[11..];
    IsoSeparator(iso);
    SpacedIso(iso, spaced);
    RemoveMilliseconds(spaced);
    ZeroMilliseconds(iso[19..]);
    assert iso[19..][1..4] == iso[20..23];
    if iso[20..23] == "000" {
      assert FormatTime(iso) == date;
      assert date + "" == date;
    } else {
      assert FormatTime(iso) == spaced == date + iso[19..];
    }
  }

  /**
   * `level.toUpperCase().replace('WARNING', 'WARN')`: empty only for the
   * empty level, and equal to the upper-cased level except that its
   * leftmost `WARNING`, if any, becomes `WARN`.
   */
  function CanonicalLevel(level: string): (r: string)
    ensures r == [] <==> level == []
    ensures !Contains(ToUpper(level), "WARNING") ==> r == ToUpper(level)
    ensures forall i: nat :: FirstMatch(ToUpper(level), "WARNING", i) ==>
      r == ToUpper(level)[..i] + "WARN" + ToUpper(level)[i + 7..]
  {
    ReplaceFirst(ToUpper(level), "WARNING", "WARN")
  }

  /** Upper-casing a literal, one character at a time. */
  lemma UpperOf(s: string, u: string)
    requires |s| == |u|
    requires forall i :: 0 <= i < |s| ==> UpperChar(s[i]) == u[i]
    ensures ToUpper(s) == u
  {
  }

  /**
   * Only the first `WARNING` is replaced: when the upper-cased level starts
   * with `WARNING`, that one becomes `WARN` and the rest, whatever it
   * holds (`" WARNING"`, say), stays as it is.
   */
  lemma OnlyFirstWarningReplaced(level: string, rest: string)
    requires ToUpper(level) == "WARNING" + rest
    ensures CanonicalLevel(level) == "WARN" + rest
  {
    var u := ToUpper(level);
    assert u[0..7] == "WARNING";
    assert FirstMatch(u, "WARNING", 0);
    assert u[7..] == rest;
  }

  /** `WARNING` becomes `WARN`, as a level written in any letter case does. */
  lemma WarningBecomesWarn(level: string)
    requires level == "warning" || level == "Warning" || level == "WARNING"
    ensures CanonicalLevel(level) == "WARN"
  {
    assert ToUpper(level) == "WARNING" + "" by {
      UpperOf(level, "WARNING");
      assert "WARNING" + "" == "WARNING";
    }
    OnlyFirstWarningReplaced(level, "");
    assert "WARN" + "" == "WARN";
  }

  /** A canonical level can still contain `WARNING`. */
  lemma CanonicalLevelKeepsWarning(level: string)
    requires level == "warninging"
    ensures CanonicalLevel(level) == "WARNING"
  {
    assert ToUpper(level) == "WARNING" + "ING" by {
      UpperOf(level, "WARNINGING");
      assert "WARNING" + "ING" == "WARNINGING";
    }
    OnlyFirstWarningReplaced(level, "ING");
    assert "WARN" + "ING" == "WARNING";
  }

  /** So canonicalising twice can differ from canonicalising once. */
  lemma CanonicalLevelNotIdempotent(level: string)
    requires level == "warninging"
    ensures CanonicalLevel(CanonicalLevel(level)) != CanonicalLevel(level)
  {
    CanonicalLevelKeepsWarning(level);
    WarningBecomesWarn(CanonicalLevel(level));
  }

  /**
   * `new Date(obj.time).toISOString()` then `FormatTime`; `None` when it throws.
   * A missing `time` gives an invalid date.
   */
  function TimeStep(time: Field, isoOf: Field -> Option<string>): (r: Option<string>)
    ensures r.None? <==> time.Absent? || isoOf(time).None?
  {
    if time.Absent? then None
    else
      match isoOf(time)
      case None => None
      case Some(iso) => Some(FormatTime(iso))
  }

  /**
   * `obj.level?.toUpperCase().replace('WARNING', 'WARN') || ''`; `None` when
   * it throws, which it does for a number or boolean level, as those have no
   * `toUpperCase`. The `|| ''` only matters for a missing level, since the
   * canonical form of a string is empty only when the string is.
   */
  function LevelStep(level: Field): (r: Option<string>)
    ensures r.None? <==> level.Scalar?
    ensures r == Some("") <==> level.Absent? || level.Null? || level == Text("")
  {
    match level
    case Absent | Null => Some("")
    case Text(s) => Some(CanonicalLevel(s))
    case Scalar(_) => None
  }

  /**
   * The inner `try`: `JSON.parse(obj.msg)`, falling back to `{msg: obj.msg}`.
   * A missing `msg` is parsed as the text `undefined` and fails, so the
   * fallback copies `undefined`; `null`, numbers and booleans re-parse to
   * themselves, which have no `msg`, `VU` or `ITER`.
   */
  function PayloadStep(msg: Field, decodePayload: string -> PayloadDecode): Payload {
    match msg
    case Absent | Null | Scalar(_) => Payload(None, None, None)
    case Text(s) =>
      match decodePayload(s)
      case NotJson => Payload(Some(s), None, None)
      case Json(m, vu, iter) => Payload(m, vu, iter)
  }

  /**
   * The `lines.map` callback: the record for one line, or `None` when the
   * outer `try` catches (the line is not a JSON object, its time is missing
   * or invalid, or its level is a non-string scalar).
   */
  function NormaliseLine(line: string, codec: Codec): Option<LogRecord>
  {
    match codec.decodeLine(line)
    case NotRecord => None
    case Record(time, level, msg) =>
      var t := TimeStep(time, codec.isoOf);
      var l := LevelStep(level);
      var p := PayloadStep(msg, codec.decodePayload);
      if t.None? || l.None? then None
      else Some(LogRecord(t.value, l.value, p.message, p.vu, p.iter))
  }

  /**
   * A line is dropped exactly when it is not a JSON object, its time is
   * missing or invalid, or its level is a number or boolean. A kept
   * record's time is the formatted ISO string, and its level is the
   * canonical level of a string level and empty otherwise.
   */
  lemma LineDropRule(line: string, codec: Codec)
    ensures NormaliseLine(line, codec).None? <==>
      codec.decodeLine(line).NotRecord? ||
      codec.decodeLine(line).time.Absent? ||
      codec.isoOf(codec.decodeLine(line).time).None? ||
      codec.decodeLine(line).level.Scalar?
    ensures NormaliseLine(line, codec).Some? ==>
      var r := NormaliseLine(line, codec).value;
      var obj := codec.decodeLine(line);
      r.time == FormatTime(codec.isoOf(obj.time).value) &&
      (obj.level.Text? ==> r.level == CanonicalLevel(obj.level.s)) &&
      (!obj.level.Text? ==> r.level == "")
  {
    match codec.decodeLine(line)
    case NotRecord =>
    case Record(time, level, msg) =>
      assert NormaliseLine(line, codec).None? <==>
        TimeStep(time, codec.isoOf).None? || LevelStep(level).None?;
  }

  /**
   * When the `msg` text is not JSON, the message is that raw text and VU and
   * ITER are absent; when it is, the three fields are the payload's.
   */
  lemma MessageOfLine(line: string, codec: Codec)
    requires NormaliseLine(line, codec).Some?
    ensures codec.decodeLine(line).msg.Text? ==>
      var raw := codec.decodeLine(line).msg.s;
      var r := NormaliseLine(line, codec).value;
      match codec.decodePayload(raw)
      case NotJson => r.message == Some(raw) && r.vu.None? && r.iter.None?
      case Json(m, vu, iter) => r.message == m && r.vu == vu && r.iter == iter
    ensures !codec.decodeLine(line).msg.Text? ==>
      var r := NormaliseLine(line, codec).value;
      r.message.None? && r.vu.None? && r.iter.None?
  {
  }

  /** `line.trim() !== ''` */
  function HasContent(line: string): bool {
    Trim(line) != []
  }

  /**
   * `text.split('\n').filter((line) => line.trim() !== '')`: the lines of the
   * file, in order, that are not white space only.
   */
  function ContentLines(text: string): (lines: seq<string>)
    // The first three follow from the last and `Select`'s contract; they are
    // spelled out for readers.
    ensures IsSubsequence(lines, Split(text, '\n'))
    ensures forall l :: l in lines ==> '\n' !in l && !IsBlank(l)
    ensures forall l :: l in Split(text, '\n') && !IsBlank(l) ==> l in lines
    ensures lines == Select(Split(text, '\n'), NotBlank)
  {
    var all := Split(text, '\n');
    forall l | l in all ensures HasContent(l) == NotBlank(l) {
      TrimEmpty(l);
    }
    SelectAgree(all, HasContent, NotBlank);
    Select(all, HasContent)
  }

  /** The `map` then `filter(Boolean)`: the records of the lines that normalise, in order. */
  function ParseLines(lines: seq<string>, codec: Codec): (records: seq<LogRecord>)
    ensures |records| <= |lines|
  {
    if lines == [] then []
    else
      var rest := ParseLines(lines[1..], codec);
      match NormaliseLine(lines[0], codec)
      case None => rest
      case Some(x) => [x] + rest
  }

  /** Every record is the normalisation of one of the lines. */
  lemma {:induction false} ParseLinesFromLines(lines: seq<string>, codec: Codec, x: LogRecord)
    requires x in ParseLines(lines, codec)
    ensures exists i :: 0 <= i < |lines| && NormaliseLine(lines[i], codec) == Some(x)
    decreases |lines|
  {
    if NormaliseLine(lines[0], codec) != Some(x) {
      ParseLinesFromLines(lines[1..], codec, x);
      var i :| 0 <= i < |lines[1..]| && NormaliseLine(lines[1..][i], codec) == Some(x);
      assert lines[i + 1] == lines[1..][i];
    }
  }

  /** The whole `reader.onload` pipeline, from file text to records. */
  function Parse(text: string, codec: Codec): (records: seq<LogRecord>)
    ensures |records| <= |ContentLines(text)|
  {
    ParseLines(ContentLines(text), codec)
  }

  /**
   * Every record of a file comes from a line of that file that is not
   * white space only: no record is made for a blank line.
   */
  lemma RecordFromContentLine(text: string, codec: Codec, x: LogRecord)
    requires x in Parse(text, codec)
    ensures exists l :: l in Split(text, '\n') && !IsBlank(l) && NormaliseLine(l, codec) == Some(x)
  {
    var lines := ContentLines(text);
    ParseLinesFromLines(lines, codec, x);
    var i :| 0 <= i < |lines| && NormaliseLine(lines[i], codec) == Some(x);
    assert lines[i] in lines;
  }

  /**
   * Lines are handled independently and in order: the records of a file
   * are those of its first part followed by those of its second part.
   */
  lemma {:induction false} ParseLinesAppend(a: seq<string>, b: seq<string>, codec: Codec)
    ensures ParseLines(a + b, codec) == ParseLines(a, codec) + ParseLines(b, codec)
    decreases |a|
  {
    if a == [] {
      assert a + b == b;
    } else {
      assert (a + b)[1..] == a[1..] + b;
      ParseLinesAppend(a[1..], b, codec);
    }
  }

  /** A line that fails is dropped, and the lines after it are still parsed. */
  lemma DroppedLine(before: seq<string>, bad: string, after: seq<string>, codec: Codec)
    requires NormaliseLine(bad, codec).None?
    ensures ParseLines(before + [bad] + after, codec) == ParseLines(before, codec) + ParseLines(after, codec)
  {
    ParseLinesAppend(before + [bad], after, codec);
    ParseLinesAppend(before, [bad], codec);
  }

  /** Every content line yields a record exactly when every one of them normalises. */
  lemma {:induction false} ParseLinesKeepsAll(lines: seq<string>, codec: Codec)
    ensures |ParseLines(lines, codec)| == |lines| <==>
      forall l :: l in lines ==> NormaliseLine(l, codec).Some?
    decreases |lines|
  {
    if lines != [] {
      ParseLinesKeepsAll(lines[1..], codec);
      assert forall l :: l in lines <==> l == lines[0] || l in lines[1..];
    }
  }
}
