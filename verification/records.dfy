/**
 * The shapes of data in the log viewer: what the two JSON decodes of a log
 * line can yield, and the normalised record the viewer keeps.
 */
module Records {
  import opened Options

  /**
   * One field of the decoded outer object: missing (`undefined`), `null`,
   * a string, or another scalar (a finite number or a boolean), kept as its
   * JSON literal (`0`, `1e300`, `true`) so that the date step can tell
   * values apart.
   */
  datatype Field = Absent | Null | Text(s: string) | Scalar(literal: string)

  /**
   * `JSON.parse(line)`: either a value with its `time`, `level` and `msg`
   * properties, or nothing whose `.time` can be read: a syntax error, or the
   * JSON `null`, on which the lookup throws. Another non-object value such
   * as `42`, `"x"` or an array reads every property as `undefined`, so it is
   * a `Record` whose fields are `Absent`, and its line fails later, when
   * `new Date(undefined).toISOString()` throws.
   */
  datatype LineDecode = NotRecord | Record(time: Field, level: Field, msg: Field)

  /**
   * `JSON.parse(msgText)` on the text of the outer `msg`: a syntax error, or
   * a JSON value whose `msg`, `VU` and `ITER` properties are read (all
   * absent when the value is not an object).
   */
  datatype PayloadDecode = NotJson | Json(msg: Option<string>, vu: Option<int>, iter: Option<int>)

  /**
   * The library calls the parser relies on: `JSON.parse` on a line, `JSON.parse`
   * on a `msg` string, and `new Date(v).toISOString()` on a field that is
   * present (`None` when the date is invalid and `toISOString` throws).
   */
  datatype Codec = Codec(
    decodeLine: string -> LineDecode,
    decodePayload: string -> PayloadDecode,
    isoOf: Field -> Option<string>)

  /** The message part of a record: the payload's `msg`, `VU` and `ITER`. */
  datatype Payload = Payload(message: Option<string>, vu: Option<int>, iter: Option<int>)

  /** A normalised log line: `{time, level, message, VU, ITER}`. */
  datatype LogRecord = LogRecord(
    time: string,
    level: string,
    message: Option<string>,
    vu: Option<int>,
    iter: Option<int>)
}
