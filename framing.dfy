/**
 * How the wakeup handler cuts a received datagram into lines and a line into
 * a key and a value. Everything here works on the datagram `m` as received,
 * with C-string semantics: the handler stores a NUL right after the data, and
 * `strchr`/`strlen` stop at the first NUL, so an embedded NUL ends a line
 * just as the end of the data does.
 */
module Framing {
  import opened Wrappers

  const NUL: char := '\0'

  /** Where the line starting at `p` ends: the first '\n' or NUL at or after
      `p`, or `|m|`, the NUL stored after the datagram. */
  function LineEnd(m: string, p: nat): (j: nat)
    requires p <= |m|
    ensures p <= j <= |m|
    ensures j < |m| ==> m[j] == '\n' || m[j] == NUL
    decreases |m| - p
  {
    if p == |m| || m[p] == '\n' || m[p] == NUL then p else LineEnd(m, p + 1)
  }

  /** No byte before the line end is '\n' or NUL: `LineEnd` finds the first. */
  lemma {:induction false} LineEndIsFirst(m: string, p: nat)
    requires p <= |m|
    ensures forall i :: p <= i < LineEnd(m, p) ==> m[i] != '\n' && m[i] != NUL
    decreases |m| - p
  {
    if p < |m| && m[p] != '\n' && m[p] != NUL {
      LineEndIsFirst(m, p + 1);
    }
  }

  /** Offset of the first '=' in a line (`strchr(key, '=')`), or `|line|`. */
  function EqIndex(line: string): (e: nat)
    ensures e <= |line|
    ensures e < |line| ==> line[e] == '='
  {
    if line == [] || line[0] == '=' then 0 else 1 + EqIndex(line[1..])
  }

  /** No byte before `EqIndex` is '=': it finds the first. */
  lemma {:induction false} EqIndexIsFirst(line: string)
    ensures forall i :: 0 <= i < EqIndex(line) ==> line[i] != '='
  {
    if line != [] && line[0] != '=' {
      EqIndexIsFirst(line[1..]);
      assert forall i :: 1 <= i < EqIndex(line) ==> line[i] == line[1..][i - 1];
    }
  }

  /** The key: everything before the first '='. */
  function KeyOf(line: string): string
  {
    line[..EqIndex(line)]
  }

  /** The value: everything after the first '=', or NULL when the line has none. */
  function ValueOf(line: string): Option<string>
  {
    var e := EqIndex(line);
    if e < |line| then Some(line[e + 1..]) else None
  }

  /** A line holds no NUL: `strchr` on it sees the whole line. */
  lemma LineHasNoNul(m: string, p: nat)
    requires p <= |m|
    ensures NUL !in m[p..LineEnd(m, p)]
  {
    LineEndIsFirst(m, p);
    assert forall i :: 0 <= i < LineEnd(m, p) - p ==> m[p..LineEnd(m, p)][i] == m[p + i];
  }

  /** Splitting a line at its first '=' loses nothing. */
  lemma KeyValueSplit(line: string)
    ensures '=' !in KeyOf(line)
    ensures ValueOf(line).None? ==> line == KeyOf(line) && '=' !in line
    ensures ValueOf(line).Some? ==> line == KeyOf(line) + "=" + ValueOf(line).value
  {
    var e := EqIndex(line);
    EqIndexIsFirst(line);
    if e < |line| {
      assert line == line[..e] + "=" + line[e + 1..];
    }
  }

  /** Joining a key without '=' to any value and splitting again gives both back. */
  lemma {:induction false} KeyValueJoin(key: string, value: string)
    requires '=' !in key
    ensures KeyOf(key + "=" + value) == key
    ensures ValueOf(key + "=" + value) == Some(value)
  {
    var line := key + "=" + value;
    if key == [] {
      assert line[0] == '=';
    } else {
      assert line[1..] == key[1..] + "=" + value;
      KeyValueJoin(key[1..], value);
      assert EqIndex(line) == |key|;
    }
  }

  /** From `p` on, every non-empty line up to the first empty one ends in '\n'.
      A non-empty line ended by NUL instead would make the handler continue
      at `NULL + 1`. */
  predicate Framed(m: string, p: nat)
    requires p <= |m|
    decreases |m| - p
  {
    var j := LineEnd(m, p);
    j == p || (j < |m| && m[j] == '\n' && Framed(m, j + 1))
  }

  /** A datagram the handler can cut into lines without undefined behaviour:
      its first line is not empty (otherwise the handler writes before the
      buffer) and it is framed. */
  predicate Accepted(m: string)
  {
    LineEnd(m, 0) > 0 && Framed(m, 0)
  }

  /** Start of the empty line that ends the message. */
  function Terminator(m: string, p: nat): (t: nat)
    requires p <= |m| && Framed(m, p)
    ensures p <= t <= |m| && LineEnd(m, t) == t
    ensures LineEnd(m, p) > p ==> t > LineEnd(m, p) && m[t - 1] == '\n'
    decreases |m| - p
  {
    var j := LineEnd(m, p);
    if j == p then p else Terminator(m, j + 1)
  }

  /** The non-empty lines from `p` up to the empty one, without their '\n'. */
  function LinesFrom(m: string, p: nat): seq<string>
    requires p <= |m| && Framed(m, p)
    decreases |m| - p
  {
    var j := LineEnd(m, p);
    if j == p then [] else [m[p..j]] + LinesFrom(m, j + 1)
  }

  function Lines(m: string): seq<string>
    requires Accepted(m)
  {
    LinesFrom(m, 0)
  }

  /** Each line followed by '\n'. */
  function Unlines(ls: seq<string>): string
  {
    if ls == [] then "" else ls[0] + "\n" + Unlines(ls[1..])
  }

  /** Put back together, the lines are exactly the message up to its empty line. */
  lemma {:induction false} LinesRoundTrip(m: string, p: nat)
    requires p <= |m| && Framed(m, p)
    ensures Unlines(LinesFrom(m, p)) == m[p..Terminator(m, p)]
    decreases |m| - p
  {
    var j := LineEnd(m, p);
    if j > p {
      NextLine(m, p);
      LinesRoundTrip(m, j + 1);
      assert m[p..Terminator(m, p)] == m[p..j] + "\n" + m[j + 1..Terminator(m, p)];
    }
  }

  /** The lines are non-empty and hold neither '\n' nor NUL. */
  lemma {:induction false} LinesAreClean(m: string, p: nat)
    requires p <= |m| && Framed(m, p)
    ensures forall i :: 0 <= i < |LinesFrom(m, p)| ==>
              LinesFrom(m, p)[i] != [] && '\n' !in LinesFrom(m, p)[i] && NUL !in LinesFrom(m, p)[i]
    decreases |m| - p
  {
    var j := LineEnd(m, p);
    if j > p {
      NextLine(m, p);
      LineEndIsFirst(m, p);
      LinesAreClean(m, j + 1);
      var ls, rest := LinesFrom(m, p), LinesFrom(m, j + 1);
      forall i | 0 <= i < |ls|
        ensures ls[i] != [] && '\n' !in ls[i] && NUL !in ls[i]
      {
        if i > 0 {
          assert ls[i] == rest[i - 1];
        }
      }
    }
  }

  /** One non-empty framed line: it ends in '\n', the rest is framed, and it
      is the first of the lines from `p`. */
  lemma NextLine(m: string, p: nat)
    requires p <= |m| && Framed(m, p) && LineEnd(m, p) > p
    ensures LineEnd(m, p) < |m| && m[LineEnd(m, p)] == '\n'
    ensures Framed(m, LineEnd(m, p) + 1)
    ensures Terminator(m, LineEnd(m, p) + 1) == Terminator(m, p)
    ensures LinesFrom(m, p) == [m[p..LineEnd(m, p)]] + LinesFrom(m, LineEnd(m, p) + 1)
  {
  }
}
