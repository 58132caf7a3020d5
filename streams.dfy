/** Line-oriented reading from a C++ input stream, as `std::getline(stream, str)`
    does it with the default '\n' delimiter. Used for both the console (std::cin)
    and the configuration file (std::ifstream). */
module Streams {

  /** What is left to read, and the stream's eofbit and failbit. */
  datatype Stream = Stream(rest: string, eof: bool, fail: bool)
  {
    /** The stream's good() state: neither bit set. */
    predicate Good() { !eof && !fail }
  }

  /** A freshly opened stream over `text`. */
  function Open(text: string): Stream { Stream(text, false, false) }

  /** The length of the first line of `s`: the index of its first '\n', or |s| when there is none. */
  function LineLength(s: string): nat
  {
    if s == [] || s[0] == '\n' then 0 else 1 + LineLength(s[1..])
  }

  /** The first line ends at the first '\n', or at the end of the text. */
  lemma {:induction false} LineLengthStops(s: string)
    ensures LineLength(s) <= |s|
    ensures forall i :: 0 <= i < LineLength(s) ==> s[i] != '\n'
    ensures LineLength(s) < |s| ==> s[LineLength(s)] == '\n'
  {
    if s != [] && s[0] != '\n' {
      LineLengthStops(s[1..]);
      forall i | 0 < i < LineLength(s) ensures s[i] != '\n' {
        assert s[i] == s[1..][i - 1];
      }
    }
  }

  /** The stream and the string after `std::getline(s, str)` when `str` held `prev`.
      A stream that is not good fails again and leaves the string alone; otherwise the
      string is cleared and receives the characters up to the next '\n', which is consumed;
      reaching the end sets eofbit, and extracting nothing at all also sets failbit. */
  function ReadLine(s: Stream, prev: string): (Stream, string)
  {
    if !s.Good() then (s.(fail := true), prev)
    else
      var k := LineLength(s.rest);
      if k < |s.rest| then (Open(s.rest[k + 1..]), s.rest[..k])
      else (Stream([], true, k == 0), s.rest)
  }

  /** What one read does: a failed stream yields the old string; a good one yields the text up
      to the first '\n' (never a '\n' itself) and stays good exactly when there was one, the
      line and the '\n' being removed from the front of the input; without one, the whole rest
      is read, eofbit is set, and failbit too when nothing was left. */
  lemma ReadLineMeaning(s: Stream, prev: string)
    ensures var r := ReadLine(s, prev);
            (!s.Good() ==> r.1 == prev && r.0.fail && r.0.rest == s.rest)
            && (s.Good() ==> '\n' !in r.1)
            && (s.Good() && '\n' in s.rest ==> r.0.Good() && s.rest == r.1 + "\n" + r.0.rest)
            && (s.Good() && '\n' !in s.rest ==> r.1 == s.rest && r.0 == Stream([], true, s.rest == []))
            && (r.0.Good() <==> s.Good() && '\n' in s.rest)
  {
    if s.Good() {
      var k := LineLength(s.rest);
      LineLengthStops(s.rest);
      var line := ReadLine(s, prev).1;
      assert line == s.rest[..k];
      assert '\n' !in line by {
        forall i | 0 <= i < |line| ensures line[i] != '\n' { assert line[i] == s.rest[i]; }
      }
      if k < |s.rest| {
        assert s.rest == s.rest[..k] + "\n" + s.rest[k + 1..];
      } else {
        assert s.rest[..k] == s.rest;
      }
    }
  }

  /** `std::getline`: extracts one character at a time into `line`. */
  method GetLine(s: Stream, prev: string) returns (s': Stream, line: string)
    ensures (s', line) == ReadLine(s, prev)
  {
    if !s.Good() {
      s', line := s.(fail := true), prev;
      return;
    }
    line := "";
    var i := 0;
    while i < |s.rest| && s.rest[i] != '\n'
      invariant i <= |s.rest|
      invariant line == s.rest[..i]
      invariant forall j :: 0 <= j < i ==> s.rest[j] != '\n'
    {
      line := line + [s.rest[i]];
      i := i + 1;
    }
    LineLengthStops(s.rest);
    assert i == LineLength(s.rest);
    if i < |s.rest| {
      s' := Open(s.rest[i + 1..]);
    } else {
      assert line == s.rest;
      s' := Stream([], true, i == 0);
    }
  }

  /** Text made of `lines`, each followed by '\n'. */
  function Join(lines: seq<string>): string
  {
    if lines == [] then [] else lines[0] + "\n" + Join(lines[1..])
  }

  predicate NoLineFeed(lines: seq<string>)
  {
    forall i :: 0 <= i < |lines| ==> '\n' !in lines[i]
  }

  /** Reading a stream opened over joined lines yields the first line and leaves the others;
      reading past the last line yields "" and sets both eofbit and failbit. */
  lemma ReadJoined(lines: seq<string>, prev: string)
    requires NoLineFeed(lines)
    ensures lines != [] ==> ReadLine(Open(Join(lines)), prev) == (Open(Join(lines[1..])), lines[0])
    ensures lines == [] ==> ReadLine(Open(Join(lines)), prev) == (Stream([], true, true), "")
  {
    if lines != [] {
      var text := Join(lines);
      assert text == lines[0] + "\n" + Join(lines[1..]);
      LineLengthStops(text);
      var k := LineLength(text);
      assert text[|lines[0]|] == '\n';
      assert k == |lines[0]|;
      assert text[..k] == lines[0];
      assert text[k + 1..] == Join(lines[1..]);
    }
  }

  /** A line followed by '\n' is read whole, and the rest stays to be read. */
  lemma ReadTerminated(line: string, tail: string, prev: string)
    requires '\n' !in line
    ensures ReadLine(Open(line + "\n" + tail), prev) == (Open(tail), line)
  {
    var text := line + "\n" + tail;
    LineLengthStops(text);
    var k := LineLength(text);
    assert text[|line|] == '\n';
    assert forall i :: 0 <= i < |line| ==> text[i] == line[i];
    assert k == |line|;
    assert text[..k] == line;
    assert text[k + 1..] == tail;
  }

  /** A last line without '\n' is read whole, and sets eofbit but not failbit. */
  lemma ReadUnterminated(line: string, prev: string)
    requires '\n' !in line && line != []
    ensures ReadLine(Open(line), prev) == (Stream([], true, false), line)
  {
    LineLengthStops(line);
  }
}
