/**
 The small part of JavaScript string semantics the plugins rely on:
 `String.prototype.slice` of the ECMAScript language specification, with its
 clamping of out-of-range and negative positions, and the conversion of a
 possibly-undefined value to a string by `+` concatenation.
 */
module JsString {
  import opened Wrappers

  /** A position argument of `slice` resolved against the string length:
      a negative position counts from the end and everything is clamped
      into `[0, len]`. */
  function ResolvePosition(pos: int, len: nat): (r: nat)
    ensures r <= len
    ensures 0 <= pos <= len ==> r == pos
    ensures pos < 0 && -pos <= len ==> r == len + pos
    ensures pos < 0 && len < -pos ==> r == 0
    ensures len < pos ==> r == len
  {
    if pos < 0 then
      if len + pos < 0 then 0 else len + pos
    else if pos < len then pos else len
  }

  /** `s.slice(start, end)`: the characters from the resolved start up to
      the resolved end, or the empty string when the end is not after the
      start. */
  function Slice(s: string, start: int, end: int): (r: string)
    ensures var from, to := ResolvePosition(start, |s|), ResolvePosition(end, |s|);
      && (from < to ==> |r| == to - from)
      && (to <= from ==> r == "")
      && forall i :: 0 <= i < |r| ==> r[i] == s[from + i]
  {
    var from := ResolvePosition(start, |s|);
    var to := ResolvePosition(end, |s|);
    if from < to then s[from..to] else ""
  }

  /** With both positions inside the string and in order, `slice` is the
      plain sub-sequence. */
  lemma SliceInRange(s: string, start: int, end: int)
    requires 0 <= start <= end <= |s|
    ensures Slice(s, start, end) == s[start..end]
  {
  }

  /** A negative end counts from the end of the string (a zero end does
      not: it is position 0). */
  lemma SliceNegativeEnd(s: string, start: nat, back: nat)
    requires 0 < back
    requires start + back <= |s|
    ensures Slice(s, start, -(back as int)) == s[start..|s| - back]
  {
  }

  /** The text `+` concatenation produces for a value that is either a
      string or `undefined`. */
  function ToJsString(v: Option<string>): (r: string)
    ensures v.Some? ==> r == v.value
    ensures v.None? ==> r == "undefined"
  {
    v.GetOr("undefined")
  }
}
