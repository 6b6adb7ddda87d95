/** Rejoining hard-wrapped paragraphs, src/cc.rs. */
module Rejoin {
  import opened Wrappers
  import opened Text

  /** `char::is_uppercase`; its table is not part of this model, so it is a parameter. */
  type Upper = char -> bool

  /* ---------------------------------------------------------------- lines */

  /** `split('\n')`. */
  function SplitLines(t: string): (ls: seq<string>)
    ensures |ls| > 0
  {
    if |t| == 0 then [""]
    else if t[0] == '\n' then [""] + SplitLines(t[1..])
    else
      var rest := SplitLines(t[1..]);
      [[t[0]] + rest[0]] + rest[1..]
  }

  /** `join("\n")`. */
  function JoinLines(ls: seq<string>): string {
    if |ls| == 0 then ""
    else if |ls| == 1 then ls[0]
    else ls[0] + ("\n" + JoinLines(ls[1..]))
  }

  predicate Blank(l: string) {
    |Trim(l)| == 0
  }

  /* ---------------------------------------------------------------- breaks */

  function LastNonSpace(s: string): Option<char> {
    var t := TrimEnd(s);
    if |t| == 0 then None else Some(t[|t| - 1])
  }

  const WIDE: seq<(int, int)> := [
    (0x1100, 0x115F), (0x2E80, 0x303E), (0x3041, 0x33FF), (0x3400, 0x4DBF), (0x4E00, 0x9FFF),
    (0xA000, 0xA4CF), (0xAC00, 0xD7A3), (0xF900, 0xFAFF), (0xFE30, 0xFE4F), (0xFF00, 0xFF60),
    (0xFFE0, 0xFFE6), (0x2_0000, 0x2_FFFD), (0x3_0000, 0x3_FFFD)]

  predicate IsWide(c: char) {
    exists i | 0 <= i < |WIDE| :: WIDE[i].0 <= c as int <= WIDE[i].1
  }

  predicate IsMarker(c: char) {
    c == '-' || c == '*' || c == '>' || c == '\U{2022}' || c == '\U{25CF}' || c == '\U{25C6}' || c == '\U{25C7}'
    || c == '\U{25AA}' || c == '\U{25AB}'
  }

  function DigitRun(s: string): (n: nat)
    ensures n <= |s|
  {
    if |s| == 0 || !IsDigit(s[0]) then 0 else 1 + DigitRun(s[1..])
  }

  /** Length of the list marker `s` starts with: one marker character, or digits and `.` or `)`. */
  function MarkerLength(s: string): (r: Option<nat>)
    ensures r.Some? ==> 1 <= r.value <= |s|
  {
    if |s| == 0 then None
    else if IsMarker(s[0]) then Some(1)
    else
      var n := DigitRun(s);
      if n > 0 && n < |s| && (s[n] == '.' || s[n] == ')') then Some(n + 1) else None
  }

  /** A list marker with white space behind it. */
  predicate StartsWithBullet(s: string) {
    MarkerLength(s).Some? && MarkerLength(s).value < |s| && IsWhitespace(s[MarkerLength(s).value])
  }

  predicate StartsWithFence(s: string) {
    |s| >= 3 && s[0] == '`' && s[1] == '`' && s[2] == '`'
  }

  predicate EndsSentence(c: char) {
    c == '.' || c == '!' || c == '?' || c == '\U{3002}' || c == '\U{FF01}' || c == '\U{FF1F}'
  }

  /** Whether the break before a line survives; `next` is that line without its indent. */
  predicate KeepBreak(prevTail: Option<char>, next: string, upper: Upper) {
    |next| == 0 || StartsWithBullet(next) || StartsWithFence(next)
    || (prevTail.Some? && EndsSentence(prevTail.value) && (upper(next[0]) || IsWide(next[0])))
  }

  /* ---------------------------------------------------------------- paragraphs */

  /** No space between two wide characters, one space otherwise. */
  function Glue(prevTail: Option<char>, next: string): string {
    if prevTail.Some? && |next| > 0 && IsWide(prevTail.value) && IsWide(next[0]) then "" else " "
  }

  /** `next` as a line of its own, or glued to the last line. */
  function AddLine(acc: seq<string>, next: string, keep: bool, glue: string): (r: seq<string>)
    requires |acc| > 0
    ensures |r| > 0
  {
    var m := |acc| - 1;
    if keep then acc + [TrimEnd(next)]
    else acc[..m] + [TrimEnd(acc[m]) + glue + TrimEnd(TrimStart(next))]
  }

  /** One more line of a paragraph, on the output lines so far. */
  function FoldLine(acc: seq<string>, next: string, upper: Upper): (r: seq<string>)
    requires |acc| > 0
    ensures |r| > 0
  {
    var tail, head := LastNonSpace(acc[|acc| - 1]), TrimStart(next);
    AddLine(acc, next, KeepBreak(tail, head, upper), Glue(tail, head))
  }

  function Fold(lines: seq<string>, upper: Upper): (r: seq<string>)
    requires |lines| > 0
    ensures |r| > 0
  {
    if |lines| == 1 then [TrimEnd(lines[0])]
    else FoldLine(Fold(lines[..|lines| - 1], upper), lines[|lines| - 1], upper)
  }

  predicate Fenced(lines: seq<string>) {
    exists l | l in lines :: StartsWithFence(TrimStart(l))
  }

  function TrimAll(lines: seq<string>): (r: seq<string>)
    ensures |r| == |lines| && forall i :: 0 <= i < |lines| ==> r[i] == TrimEnd(lines[i])
  {
    seq(|lines|, i requires 0 <= i < |lines| => TrimEnd(lines[i]))
  }

  /** The output lines of one paragraph. */
  function Paragraph(lines: seq<string>, upper: Upper): (r: seq<string>)
    requires |lines| > 0
    ensures |r| > 0
  {
    if |lines| > 1 && Fenced(lines) then TrimAll(lines) else Fold(lines, upper)
  }

  /* ---------------------------------------------------------------- texts */

  /** Number of lines in the paragraph `lines` starts with. */
  function RunLength(lines: seq<string>): (n: nat)
    ensures n <= |lines|
  {
    if |lines| == 0 || Blank(lines[0]) then 0 else 1 + RunLength(lines[1..])
  }

  /** The output lines of a text: blank lines emptied, paragraphs folded. */
  function Output(lines: seq<string>, upper: Upper): seq<string>
    decreases |lines|
  {
    if |lines| == 0 then []
    else if Blank(lines[0]) then [""] + Output(lines[1..], upper)
    else
      var n := RunLength(lines);
      Paragraph(lines[..n], upper) + Output(lines[n..], upper)
  }

  function Rejoined(text: string, upper: Upper): string {
    if |text| == 0 then "" else JoinLines(Output(SplitLines(text), upper))
  }
}
