/** The line filter of `get_codecs` in utils.py: keep the output of an
    `mplayer`/`mencoder ... help` command from the line announcing the codec
    list onwards, or the whole output when there is no such line. The shell
    command itself is not modelled; its output is the input. */
module Codecs {
  import opened Text

  /** The line that announces the codec list. */
  const Marker := "Available codecs:"

  /** One turn of the loop: a line is appended (after a newline) once the
      filter is no longer skipping, and a marker line is appended once more
      (without a newline) and ends the skipping. */
  function Step(text: string, skip: bool, line: string): (string, bool)
  {
    var t := if !skip then text + "\n" + line else text;
    if Contains(line, Marker) then (t + line, false) else (t, skip)
  }

  /** The loop's state after the given lines, starting from `('', True)`. */
  function Scan(lines: seq<string>): (string, bool)
  {
    if |lines| == 0 then ("", true)
    else
      var prev := Scan(lines[..|lines| - 1]);
      Step(prev.0, prev.1, lines[|lines| - 1])
  }

  /** The text `get_codecs` returns for the command output `output`. */
  function CodecText(output: string): string
  {
    var text := Scan(Split(output, '\n')).0;
    if text == "" then output else text
  }

  /** `get_codecs` with the command's output given. */
  method GetCodecs(output: string) returns (text: string)
    ensures text == CodecText(output)
  {
    var lines := Split(output, '\n');
    text := "";
    var skip := true;
    var i := 0;
    while i < |lines|
      invariant 0 <= i <= |lines|
      invariant (text, skip) == Scan(lines[..i])
    {
      assert lines[..i + 1][..i] == lines[..i];
      var line := lines[i];
      if !skip {
        text := text + "\n" + line;
      }
      if Contains(line, Marker) {
        text := text + line;
        skip := false;
      }
      i := i + 1;
    }
    assert lines[..i] == lines;
    if text == "" {
      text := output;
    }
  }

  /** Before any marker line the filter keeps nothing and keeps skipping. */
  lemma {:induction false} ScanNoMarker(lines: seq<string>)
    requires forall i :: 0 <= i < |lines| ==> !Contains(lines[i], Marker)
    ensures Scan(lines) == ("", true)
  {
    if |lines| > 0 {
      ScanNoMarker(lines[..|lines| - 1]);
    }
  }

  /** Without a marker line the whole output is returned unchanged. */
  lemma NoMarkerKeepsOutput(output: string)
    requires forall i :: 0 <= i < |Split(output, '\n')| ==> !Contains(Split(output, '\n')[i], Marker)
    ensures CodecText(output) == output
  {
    ScanNoMarker(Split(output, '\n'));
  }

  /** From a single marker line at `k` onwards, the kept text is the lines
      from `k` joined by newlines. */
  lemma {:induction false} ScanFromMarker(lines: seq<string>, k: nat)
    requires k < |lines| && Contains(lines[k], Marker)
    requires forall i :: 0 <= i < |lines| && i != k ==> !Contains(lines[i], Marker)
    ensures Scan(lines) == (Join(lines[k..], "\n"), false)
  {
    var n := |lines|;
    var prev := lines[..n - 1];
    assert Scan(lines) == Step(Scan(prev).0, Scan(prev).1, lines[n - 1]);
    if n - 1 == k {
      ScanNoMarker(prev);
      assert lines[k..] == [lines[k]];
      assert "" + lines[k] == lines[k];
    } else {
      ScanFromMarker(prev, k);
      assert prev[k..] + [lines[n - 1]] == lines[k..];
      JoinSnoc(prev[k..], lines[n - 1], "\n");
    }
  }

  /** With exactly one marker line, `get_codecs` returns that line and every
      line after it, joined by newlines. */
  lemma SingleMarker(output: string, k: nat)
    requires k < |Split(output, '\n')| && Contains(Split(output, '\n')[k], Marker)
    requires forall i :: 0 <= i < |Split(output, '\n')| && i != k ==> !Contains(Split(output, '\n')[i], Marker)
    ensures CodecText(output) == Join(Split(output, '\n')[k..], "\n")
  {
    var lines := Split(output, '\n');
    ScanFromMarker(lines, k);
    var rest := lines[k..];
    assert rest == [lines[k]] + rest[1..];
    if |rest| > 1 {
      JoinAppend([lines[k]], rest[1..], "\n");
    }
    assert Join(rest, "\n")[..|lines[k]|] == lines[k];
    assert |lines[k]| >= |Marker|;
  }

  /** A second marker line, met after the first, is appended twice: once as a
      kept line and once as a marker. */
  lemma RepeatedMarker(line: string)
    requires Contains(line, Marker)
    ensures Scan([line, line]) == (line + "\n" + line + line, false)
  {
    assert [line, line][..1] == [line];
    assert [line][..0] == [];
    assert Scan([line]) == ("" + line, false);
    assert "" + line == line;
  }
}
