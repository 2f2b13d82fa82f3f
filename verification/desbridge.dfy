/** The DesBridge navigation feed (src/DesBridge_api.py): the framing of
    the TCP byte stream into lines, the dispatch on the message tag, and
    the parser of `$NAVIGATION` messages into a `NavigationData` record.
    Sockets, threads, the heartbeat sender and the lock are not modelled;
    the provider's state is the receive buffer and the latest record.
    Python's `float()` conversion of one field is the parameter `toFloat`. */
module DesBridge {
  import opened Optional
  import opened Text
  import opened Navigation

  /** A byte received from the socket. */
  newtype byte = x: int | 0 <= x < 256

  /** The text `UNDEF` in any mix of letter cases. */
  predicate IsUndef(s: string) {
    |s| == 5 && forall i :: 0 <= i < 5 ==> s[i] == "UNDEF"[i] || s[i] == "undef"[i]
  }

  /** `safe_float`: no value for an empty field, for `UNDEF` in any letter
      case, for a whitespace-only field, or for text `float()` rejects. */
  function SafeFloat(value: string, toFloat: string -> Option<real>): (r: Option<real>)
    ensures r.Some? <==> (value != "" && !IsUndef(value) && !AllSpace(value) && toFloat(value).Some?)
    ensures r.Some? ==> r == toFloat(value)
  {
    UpperIsUndef(value);
    if |value| == 0 || Upper(value) == "UNDEF" || Strip(value) == "" then None
    else toFloat(value)
  }

  /** `value.upper() == "UNDEF"` holds exactly for the case variants of
      `UNDEF`. */
  lemma UpperIsUndef(s: string)
    ensures Upper(s) == "UNDEF" <==> IsUndef(s)
  {
    if Upper(s) == "UNDEF" {
      forall i | 0 <= i < 5
        ensures s[i] == "UNDEF"[i] || s[i] == "undef"[i]
      {
        assert UpperChar(s[i]) == "UNDEF"[i];
      }
    }
    if IsUndef(s) {
      assert forall i :: 0 <= i < 5 ==> Upper(s)[i] == "UNDEF"[i];
    }
  }

  /** The message without its checksum: everything before the first `*`. */
  function StripChecksum(msg: string): (body: string)
    ensures '*' !in body
    ensures StartsWith(msg, body)
    ensures '*' in msg ==> |body| < |msg| && msg[|body|] == '*'
    ensures '*' !in msg ==> body == msg
  {
    if '*' in msg then
      var parts := Split(msg, '*');
      assert msg == parts[0] + ['*'] + Join(parts[1..], '*');
      parts[0]
    else msg
  }

  /** The comma-separated fields of a message, checksum removed. */
  function Fields(msg: string): seq<string> {
    Split(StripChecksum(msg), ',')
  }

  /** The value of field `k`: absent when the message has no field `k`. */
  function FieldValue(fields: seq<string>, k: nat, toFloat: string -> Option<real>): Option<real> {
    if |fields| > k then SafeFloat(fields[k], toFloat) else None
  }

  /** `parse_navigation`: a message of fewer than 10 fields yields nothing;
      otherwise field `k` (1..34) becomes the `k`-th reading, absent
      trailing fields becoming absent readings. */
  function ParseNavigation(msg: string, toFloat: string -> Option<real>): (nav: Option<NavigationData>)
    ensures nav.None? <==> |Fields(msg)| < 10
    ensures nav.Some? ==> forall k :: 1 <= k <= FieldCount ==>
              FieldAt(nav.value, k) == FieldValue(Fields(msg), k, toFloat)
    ensures nav.Some? ==> nav.value.altitude == FieldValue(Fields(msg), 5, toFloat)
                          && nav.value.depth == FieldValue(Fields(msg), 4, toFloat)
  {
    var fields := Fields(msg);
    if |fields| < 10 then None
    else
      var nav := FromFields((k: nat) => FieldValue(fields, k, toFloat));
      assert FieldAt(nav, 4) == FieldValue(fields, 4, toFloat);
      assert FieldAt(nav, 5) == FieldValue(fields, 5, toFloat);
      Some(nav)
  }

  /** `process_message`: only `$NAVIGATION` messages that parse replace the
      latest record; `$HBEAT` and every other message leave it as it was. */
  function ProcessMessage(latest: Option<NavigationData>, msg: string,
                          toFloat: string -> Option<real>): (r: Option<NavigationData>)
    ensures !StartsWith(msg, "$NAVIGATION") ==> r == latest
    ensures StartsWith(msg, "$NAVIGATION") && ParseNavigation(msg, toFloat).None? ==> r == latest
    ensures StartsWith(msg, "$NAVIGATION") && ParseNavigation(msg, toFloat).Some? ==>
              r == ParseNavigation(msg, toFloat)
  {
    if StartsWith(msg, "$HBEAT") then
      HeartbeatIsNotNavigation(msg);
      latest
    else if StartsWith(msg, "$NAVIGATION") then
      var p := ParseNavigation(msg, toFloat);
      if p.Some? then p else latest
    else latest
  }

  lemma HeartbeatIsNotNavigation(msg: string)
    requires StartsWith(msg, "$HBEAT")
    ensures !StartsWith(msg, "$NAVIGATION")
  {
    assert msg[1] == msg[..6][1] == 'H';
  }

  // ---------------------------------------------------------------------
  // Framing of the byte stream

  /** One complete line: trailing carriage returns stripped, empty lines
      skipped. */
  function ProcessLine(latest: Option<NavigationData>, raw: string,
                       toFloat: string -> Option<real>): Option<NavigationData> {
    var line := RStrip(raw, '\r');
    if line != "" then ProcessMessage(latest, line, toFloat) else latest
  }

  /** The lines processed in order. */
  function ProcessLines(latest: Option<NavigationData>, raws: seq<string>,
                        toFloat: string -> Option<real>): Option<NavigationData>
    decreases |raws|
  {
    if |raws| == 0 then latest
    else ProcessLines(ProcessLine(latest, raws[0], toFloat), raws[1..], toFloat)
  }

  /** The complete lines of a buffer: every piece that a line feed ends. */
  function CompleteLines(buffer: string): seq<string> {
    var parts := Split(buffer, '\n');
    parts[..|parts| - 1]
  }

  /** The unterminated tail of a buffer, after its last line feed. */
  function Tail(buffer: string): string {
    var parts := Split(buffer, '\n');
    parts[|parts| - 1]
  }

  function IndexOf(s: string, ch: char): (i: nat)
    requires ch in s
    ensures i < |s| && s[i] == ch && ch !in s[..i]
  {
    if s[0] == ch then 0 else 1 + IndexOf(s[1..], ch)
  }

  /** The inner loop of `handle_client`: while the buffer holds a line
      feed, cut the first line off and process it. It processes exactly the
      complete lines, in order, and keeps the unterminated tail. */
  function Drain(latest: Option<NavigationData>, buffer: string,
                 toFloat: string -> Option<real>): (r: (Option<NavigationData>, string))
    ensures r == (ProcessLines(latest, CompleteLines(buffer), toFloat), Tail(buffer))
    ensures '\n' !in r.1
    decreases |buffer|
  {
    if '\n' !in buffer then
      NoLineFeed(buffer);
      (latest, buffer)
    else
      var i := IndexOf(buffer, '\n');
      var line := buffer[..i];
      var rest := buffer[i + 1..];
      assert buffer == line + ['\n'] + rest;
      FirstLine(line, rest);
      ProcessLinesCons(latest, line, CompleteLines(rest), toFloat);
      Drain(ProcessLine(latest, line, toFloat), rest, toFloat)
  }

  /** A buffer without a line feed holds no complete line and is all tail. */
  lemma NoLineFeed(buffer: string)
    requires '\n' !in buffer
    ensures CompleteLines(buffer) == [] && Tail(buffer) == buffer
  {
    var p := Split(buffer, '\n');
    assert |p| == 1;
    assert Join(p, '\n') == p[0];
  }

  /** Cutting the buffer at its first line feed: the first complete line is
      the text before it, and the rest keeps the other lines and the tail. */
  lemma FirstLine(line: string, rest: string)
    requires '\n' !in line
    ensures CompleteLines(line + ['\n'] + rest) == [line] + CompleteLines(rest)
    ensures Tail(line + ['\n'] + rest) == Tail(rest)
  {
    SplitPrefix(line, rest, '\n');
    LeadingPart(line, Split(rest, '\n'));
  }

  /** The last part of a split with one more part in front is unchanged,
      and the parts before it gain that part in front. */
  lemma LeadingPart(line: string, p: seq<string>)
    requires |p| > 0
    ensures ([line] + p)[..|p|] == [line] + p[..|p| - 1]
    ensures ([line] + p)[|p|] == p[|p| - 1]
  {
  }

  /** Processing a list of lines starts with its first line. */
  lemma ProcessLinesCons(latest: Option<NavigationData>, line: string, lines: seq<string>,
                         toFloat: string -> Option<real>)
    ensures ProcessLines(latest, [line] + lines, toFloat)
            == ProcessLines(ProcessLine(latest, line, toFloat), lines, toFloat)
  {
    assert ([line] + lines)[0] == line;
    assert ([line] + lines)[1..] == lines;
  }

  /** `data.decode('ascii', errors='ignore')`: bytes above 127 are dropped. */
  function AsciiDecode(data: seq<byte>): (s: string)
    ensures forall i :: 0 <= i < |s| ==> s[i] as int < 128
    decreases |data|
  {
    if |data| == 0 then ""
    else (if data[0] < 128 then [(data[0] as int) as char] else []) + AsciiDecode(data[1..])
  }

  /** Decoding keeps ASCII bytes, in order, one character each, and drops
      the others: all-ASCII data decodes to the same codes, and data
      without an ASCII byte decodes to nothing. */
  lemma {:induction false} AsciiDecodeKeepsAscii(data: seq<byte>)
    ensures (forall i :: 0 <= i < |data| ==> data[i] < 128) ==>
              |AsciiDecode(data)| == |data|
              && forall i :: 0 <= i < |data| ==> AsciiDecode(data)[i] as int == data[i] as int
    ensures (forall i :: 0 <= i < |data| ==> data[i] >= 128) ==> AsciiDecode(data) == ""
    decreases |data|
  {
    if |data| > 0 {
      var rest := data[1..];
      AsciiDecodeKeepsAscii(rest);
      assert forall i :: 0 <= i < |rest| ==> rest[i] == data[i + 1];
      if forall i :: 0 <= i < |data| ==> data[i] < 128 {
        var s := AsciiDecode(data);
        assert s == [(data[0] as int) as char] + AsciiDecode(rest);
        forall i | 0 <= i < |data|
          ensures s[i] as int == data[i] as int
        {
          if i > 0 {
            assert s[i] == AsciiDecode(rest)[i - 1];
          }
        }
      }
    }
  }

  /** The provider's state: the receive buffer and the latest record. */
  datatype Bridge = Bridge(buffer: string, latest: Option<NavigationData>)

  /** One `recv` of `handle_client`: append the decoded bytes, then drain
      the complete lines. The buffer never keeps a line feed. */
  function Receive(b: Bridge, data: seq<byte>, toFloat: string -> Option<real>): (r: Bridge)
    ensures '\n' !in r.buffer
    ensures r.buffer == Tail(b.buffer + AsciiDecode(data))
    ensures r.latest == ProcessLines(b.latest, CompleteLines(b.buffer + AsciiDecode(data)), toFloat)
  {
    var d := Drain(b.latest, b.buffer + AsciiDecode(data), toFloat);
    Bridge(d.1, d.0)
  }

  lemma {:induction false} AsciiDecodeAppend(d1: seq<byte>, d2: seq<byte>)
    ensures AsciiDecode(d1 + d2) == AsciiDecode(d1) + AsciiDecode(d2)
    decreases |d1|
  {
    if |d1| == 0 {
      assert d1 + d2 == d2;
    } else {
      assert (d1 + d2)[0] == d1[0];
      assert (d1 + d2)[1..] == d1[1..] + d2;
      AsciiDecodeAppend(d1[1..], d2);
    }
  }

  /** Draining `b + y` is draining `b` and then draining its tail with `y`
      appended. */
  lemma {:induction false} DrainAppend(latest: Option<NavigationData>, b: string, y: string,
                                       toFloat: string -> Option<real>)
    ensures Drain(latest, b + y, toFloat)
            == Drain(Drain(latest, b, toFloat).0, Drain(latest, b, toFloat).1 + y, toFloat)
    decreases |b|
  {
    if '\n' in b {
      var i := IndexOf(b, '\n');
      assert (b + y)[..i] == b[..i];
      assert '\n' !in (b + y)[..i];
      assert IndexOf(b + y, '\n') == i by {
        IndexOfUnique(b + y, '\n', i);
      }
      assert (b + y)[i + 1..] == b[i + 1..] + y;
      DrainAppend(ProcessLine(latest, b[..i], toFloat), b[i + 1..], y, toFloat);
    }
  }

  lemma IndexOfUnique(s: string, ch: char, i: nat)
    requires i < |s| && s[i] == ch && ch !in s[..i]
    ensures IndexOf(s, ch) == i
  {
  }

  /** Appending is associative: the buffer grows the same whichever way
      the chunks are grouped. */
  lemma AppendAssoc(a: string, b: string, c: string)
    ensures a + (b + c) == (a + b) + c
  {
  }

  /** The result does not depend on how the byte stream is cut into
      `recv` chunks. */
  lemma ChunkingIrrelevant(b: Bridge, d1: seq<byte>, d2: seq<byte>, toFloat: string -> Option<real>)
    ensures Receive(Receive(b, d1, toFloat), d2, toFloat) == Receive(b, d1 + d2, toFloat)
  {
    var x, y := AsciiDecode(d1), AsciiDecode(d2);
    AsciiDecodeAppend(d1, d2);
    AppendAssoc(b.buffer, x, y);
    var first := Drain(b.latest, b.buffer + x, toFloat);
    assert Receive(b, d1, toFloat) == Bridge(first.1, first.0);
    DrainAppend(b.latest, b.buffer + x, y, toFloat);
  }
}
