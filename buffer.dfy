/**
 * The wakeup handler's work on its static buffer: the received datagram and
 * the NUL after it, the in-place parse loop, and the `sprintf` of the result
 * line at the point where the loop stopped.
 */
module InPlace {
  import opened Wrappers
  import opened Framing
  import opened Parser
  import opened Dispatch

  /** sizeof(buf). */
  const BufSize := 1024

  /** The parse loop, on the static buffer holding the datagram `buf[..n]`
      and the NUL after it. Each line's '\n' and first '=' are zeroed for the
      C string functions and put back before `key` moves on; at the empty
      line `key` steps back onto the last line's '\n', which is zeroed. The
      empty line's own '\n' (if it has one) was zeroed too and is not put
      back, so exactly those two bytes differ afterwards. */
  method ParseLines(buf: array<char>, n: nat) returns (key: nat, ev: Event)
    requires n < buf.Length && buf[n] == NUL
    requires Parsable(buf[..n])
    modifies buf
    ensures key + 1 == Terminator(old(buf[..n]), 0)
    ensures ev == Parse(old(buf[..n]))
    ensures buf[..] == old(buf[..])[key + 1 := NUL][key := NUL]
  {
    var start;
    start, ev := ScanLines(buf, n);
    if start < n && buf[start] == '\n' {
      buf[start] := NUL;
    }
    key := start - 1;
    buf[key] := NUL;
  }

  method ScanLines(buf: array<char>, n: nat) returns (key: nat, ev: Event)
    requires n < buf.Length && buf[n] == NUL
    requires Parsable(buf[..n])
    modifies buf
    ensures buf[..] == old(buf[..])
    ensures 0 < key == Terminator(buf[..n], 0) <= n
    ensures ev == Parse(buf[..n])
  {
    ghost var m := buf[..n];
    ghost var done: seq<string> := [];
    ScanStart(m);
    key := 0;
    ev := Initial;
    var lineEnd := LineEnd(buf[..n], key);
    while lineEnd != key
      invariant key <= n && lineEnd == LineEnd(m, key)
      invariant buf[..] == old(buf[..]) && buf[..n] == m
      invariant Scanned(m, key, done)
      invariant ev == Fold(done)
      decreases n - key
    {
      ScanNext(m, key, done);
      ghost var line := m[key..lineEnd];
      assert buf[key..lineEnd] == line by {
        assert buf[..n][key..lineEnd] == buf[key..lineEnd];
      }
      FoldSnoc(done, line);
      ev := ParseLine(buf, key, lineEnd, line, ev);
      done := done + [line];
      key := lineEnd + 1;
      lineEnd := LineEnd(buf[..n], key);
    }
    ScanEnd(m, key, done);
  }

  /** One non-empty line `buf[key..lineEnd]`, ended by the '\n' at `lineEnd`:
      the '\n' and the first '=' are zeroed so that the key and the value
      are C strings, the line is processed, and both bytes are put back. */
  method ParseLine(buf: array<char>, key: nat, lineEnd: nat, ghost line: string, ev: Event)
    returns (ev': Event)
    requires key < lineEnd < buf.Length && buf[lineEnd] == '\n'
    requires buf[key..lineEnd] == line && Typed(line) && NUL !in line
    modifies buf
    ensures buf[..] == old(buf[..])
    ensures ev' == Step(ev, KeyOf(line), ValueOf(line))
  {
    buf[lineEnd] := NUL;
    var value := key + EqIndex(buf[key..lineEnd]);   // strchr(key, '=')
    var hasValue := value < lineEnd;
    if hasValue {
      buf[value] := NUL;
    }
    var name := buf[key..value];                       // the C string at key
    var text := if hasValue then Some(buf[value + 1..lineEnd]) else None;
    assert name == KeyOf(line) && text == ValueOf(line);
    TypedMeansValued(line);
    ev' := Step(ev, name, text);
    buf[lineEnd] := '\n';
    if hasValue {
      buf[value] := '=';
    }
    assert buf[..] == old(buf[..]);
  }

  /** `sprintf(key, "\nresult=%s", text)`: the suffix and its NUL are written
      at `at`; the returned count excludes the NUL. */
  method PutResult(buf: array<char>, at: nat, text: string) returns (end: nat)
    requires NUL !in text
    requires at + |ResultPrefix| + |text| < buf.Length
    modifies buf
    ensures end == at + |ResultPrefix| + |text|
    ensures buf[..] == old(buf[..at]) + ResultPrefix + text + [NUL] + old(buf[end + 1..])
  {
    var s := ResultPrefix + text + [NUL];
    forall i | at <= i < at + |s| {
      buf[i] := s[i - at];
    }
    end := at + |s| - 1;
    assert buf[..] == old(buf[..at]) + s + old(buf[end + 1..]);
  }

  /** The datagram `data` in the buffer after `recvfrom` and `buf[ret] = 0`. */
  function Received(before: seq<char>, data: string): seq<char>
    requires |data| < |before|
  {
    data + [NUL] + before[|data| + 1..]
  }

  /** The reply and its NUL fit in `buf`. */
  predicate ReplyFits(m: string, text: string)
    requires Accepted(m)
  {
    Terminator(m, 0) - 1 + |ResultPrefix| + |text| < BufSize
  }

  /** `recvfrom` into `buf` and `buf[ret] = 0`. */
  method Receive(buf: array<char>, data: string)
    requires |data| < buf.Length
    modifies buf
    ensures buf[..] == Received(old(buf[..]), data)
    ensures buf[..|data|] == data && buf[|data|] == NUL
  {
    forall i | 0 <= i < |data| {
      buf[i] := data[i];
    }
    buf[|data|] := NUL;
    assert buf[..] == Received(old(buf[..]), data);
  }

  /** `recvfrom` into the buffer, then the parse loop. */
  method Load(buf: array<char>, data: string) returns (key: nat, ev: Event)
    requires |data| < buf.Length && Parsable(data)
    modifies buf
    ensures key + 1 == Terminator(data, 0)
    ensures ev == Parse(data)
    ensures buf[..] == Received(old(buf[..]), data)[key + 1 := NUL][key := NUL]
  {
    Receive(buf, data);
    key, ev := ParseLines(buf, |data|);
  }

  /** `sprintf(key, "\nresult=%s", text)` on the parsed buffer: the reply is
      the first `end` bytes, the count handed to `sendto`. */
  method Respond(buf: array<char>, key: nat, text: string, ghost data: string, ghost before: seq<char>)
    returns (end: nat)
    requires |data| < |before| && Parsable(data) && NUL !in text
    requires buf.Length == BufSize && ReplyFits(data, text)
    requires key + 1 == Terminator(data, 0)
    requires buf[..] == Received(before, data)[key + 1 := NUL][key := NUL]
    modifies buf
    ensures end == |Reply(data, text)| && buf[..end] == Reply(data, text)
    ensures buf[..] == Reply(data, text) + [NUL] + Received(before, data)[end + 1..]
  {
    ghost var parsed := buf[..];
    end := PutResult(buf, key, text);
    ReplyLayout(before, data, key, text, parsed, buf[..]);
  }

  /** The buffer after parse and `sprintf`: the reply, its NUL, and the
      received bytes after them. */
  lemma ReplyLayout(before: seq<char>, data: string, key: nat, text: string, parsed: seq<char>, after: seq<char>)
    requires |data| < |before| && Parsable(data)
    requires key + 1 == Terminator(data, 0)
    requires parsed == Received(before, data)[key + 1 := NUL][key := NUL]
    requires key + |ResultPrefix| + |text| < |parsed|
    requires after == parsed[..key] + ResultPrefix + text + [NUL] + parsed[key + |ResultPrefix| + |text| + 1..]
    ensures after[..key + |ResultPrefix| + |text|] == Reply(data, text)
    ensures after == Reply(data, text) + [NUL] + Received(before, data)[|Reply(data, text)| + 1..]
  {
    var r := Received(before, data);
    var end := key + |ResultPrefix| + |text|;
    assert parsed[..key] == data[..key] by {
      assert parsed[..key] == r[..key];
    }
    assert parsed[end + 1..] == r[end + 1..];
  }
}
