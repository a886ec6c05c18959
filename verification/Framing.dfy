/**
 * apps/signer/src/daemon.ts, serve: how the bytes of one connection become
 * requests, one a line, whatever pieces they arrive in.
 */
module Framing {
  import opened Prelude

  const NEWLINE: byte := 0x0a
  const MAX_LINE_BYTES: nat := 256 * 1024

  /** toString("utf8").trim() */
  const TRIMMED: Bytes -> string

  function Trimmed(line: Bytes): string { TRIMMED(line) }

  /** Open; refused for a line too long, and closed; or dropped because the signer stopped. */
  datatype Status = Open | TooLong | Failed

  /** What a connection has handed to handleLine, in order, and what waits for the
      rest of its line. */
  datatype Served = Served(handed: seq<string>, rest: Bytes, status: Status)

  const NEW := Served([], [], Open)

  function IndexOf(b: Bytes): (i: Option<nat>)
    ensures i.Some? ==> i.value < |b| && b[i.value] == NEWLINE && NEWLINE !in b[..i.value]
    ensures i.None? ==> NEWLINE !in b
  {
    if b == [] then None
    else if b[0] == NEWLINE then Some(0)
    else
      var i := IndexOf(b[1..]);
      assert i.Some? ==> b[..i.value + 1] == [b[0]] + b[1..][..i.value];
      if i.Some? then Some(i.value + 1) else None
  }

  lemma {:induction false} IndexIs(b: Bytes, i: nat)
    requires i < |b| && b[i] == NEWLINE && NEWLINE !in b[..i]
    ensures IndexOf(b) == Some(i)
  {
  }

  // ----- what the loop makes of a buffer -----

  /** `throws` are the calls of handleLine, counted from 0, that end in something
      other than a reply. */
  function Drain(handed: seq<string>, buffer: Bytes, throws: set<nat>): Served
    decreases |buffer|
  {
    var index := IndexOf(buffer);
    if index.None? || index.value > MAX_LINE_BYTES then
      if |buffer| > MAX_LINE_BYTES then Served(handed, [], TooLong) else Served(handed, buffer, Open)
    else
      var line := Trimmed(buffer[..index.value]);
      var rest := buffer[index.value + 1..];
      if |line| == 0 then Drain(handed, rest, throws)
      else if |handed| in throws then Served(handed + [line], [], Failed)
      else Drain(handed + [line], rest, throws)
  }

  function OnChunk(s: Served, chunk: Bytes, throws: set<nat>): Served {
    if s.status.Open? then Drain(s.handed, s.rest + chunk, throws) else s
  }

  function OnChunks(s: Served, chunks: seq<Bytes>, throws: set<nat>): Served
    decreases |chunks|
  {
    if chunks == [] then s else OnChunks(OnChunk(s, chunks[0], throws), chunks[1..], throws)
  }

  class Connection {
    var buffer: Bytes
    var handed: seq<string>
    var status: Status
    const throws: set<nat>

    ghost function State(): Served
      reads this
    {
      Served(handed, if status.Open? then buffer else [], status)
    }

    constructor (throws: set<nat>)
      ensures State() == NEW && this.throws == throws
    {
      buffer, handed, status := [], [], Open;
      this.throws := throws;
    }

    /** The data event. */
    method OnData(chunk: Bytes)
      requires |State().rest| <= MAX_LINE_BYTES
      modifies this
      ensures State() == OnChunk(old(State()), chunk, throws)
      ensures |State().rest| <= MAX_LINE_BYTES
    {
      if !status.Open? {
        return;
      }
      ghost var result := Drain(handed, buffer + chunk, throws);
      DrainKeepsLittle(handed, buffer + chunk, throws);
      buffer := buffer + chunk;
      var index := IndexOf(buffer);
      while index.Some?
        invariant status.Open? && index == IndexOf(buffer)
        invariant Drain(handed, buffer, throws) == result
        decreases |buffer|
      {
        if index.value > MAX_LINE_BYTES {
          break;
        }
        var line := Trimmed(buffer[..index.value]);
        buffer := buffer[index.value + 1..];
        if |line| > 0 {
          handed := handed + [line];
          if |handed| - 1 in throws {
            status := Failed;
            return;
          }
        }
        index := IndexOf(buffer);
      }
      if |buffer| > MAX_LINE_BYTES {
        buffer := [];
        status := TooLong;
      }
    }
  }

  lemma {:induction false} DrainKeepsLittle(handed: seq<string>, buffer: Bytes, throws: set<nat>)
    ensures var d := Drain(handed, buffer, throws);
            |d.rest| <= MAX_LINE_BYTES && NEWLINE !in d.rest && handed <= d.handed
    decreases |buffer|
  {
    var index := IndexOf(buffer);
    if index.Some? && index.value <= MAX_LINE_BYTES {
      var line, rest := Trimmed(buffer[..index.value]), buffer[index.value + 1..];
      DrainKeepsLittle(handed, rest, throws);
      DrainKeepsLittle(handed + [line], rest, throws);
    }
  }

  // ----- the pieces do not matter -----

  lemma {:induction false} IndexInFront(b: Bytes, more: Bytes)
    ensures IndexOf(b).Some? ==> IndexOf(b + more) == IndexOf(b)
    ensures IndexOf(b).None? && IndexOf(b + more).Some? ==> IndexOf(b + more).value >= |b|
  {
    var i := IndexOf(b);
    var all := b + more;
    if i.Some? {
      assert all[..i.value] == b[..i.value];
      IndexIs(all, i.value);
    }
  }

  /** Draining a buffer and then more is draining them together. */
  lemma {:induction false} DrainTogether(handed: seq<string>, b: Bytes, more: Bytes, throws: set<nat>)
    ensures Drain(handed, b + more, throws) == OnChunk(Drain(handed, b, throws), more, throws)
    decreases |b|
  {
    var index := IndexOf(b);
    IndexInFront(b, more);
    if index.Some? && index.value <= MAX_LINE_BYTES {
      var line, rest := Trimmed(b[..index.value]), b[index.value + 1..];
      assert (b + more)[..index.value] == b[..index.value];
      assert (b + more)[index.value + 1..] == rest + more;
      DrainTogether(handed, rest, more, throws);
      DrainTogether(handed + [line], rest, more, throws);
    }
  }

  function Concat(chunks: seq<Bytes>): Bytes { if chunks == [] then [] else chunks[0] + Concat(chunks[1..]) }

  lemma {:induction false} ChunksTogether(handed: seq<string>, b: Bytes, chunks: seq<Bytes>, throws: set<nat>)
    ensures OnChunks(Drain(handed, b, throws), chunks, throws) == Drain(handed, b + Concat(chunks), throws)
    decreases |chunks|
  {
    hide Drain;
    if chunks == [] {
      assert b + Concat(chunks) == b;
    } else {
      DrainTogether(handed, b, chunks[0], throws);
      assert b + Concat(chunks) == (b + chunks[0]) + Concat(chunks[1..]);
      ChunksTogether(handed, b + chunks[0], chunks[1..], throws);
    }
  }

  /** However a stream is cut into chunks, the same lines are handed over, in the
      same order, to the same end. */
  lemma {:induction false} ChunkingDoesNotMatter(chunks: seq<Bytes>, others: seq<Bytes>, throws: set<nat>)
    requires Concat(chunks) == Concat(others)
    ensures OnChunks(NEW, chunks, throws) == OnChunks(NEW, others, throws)
  {
    ChunksTogether([], [], chunks, throws);
    ChunksTogether([], [], others, throws);
  }

  // ----- against splitting the whole stream at 0x0a -----

  datatype Lines = Lines(whole: seq<Bytes>, partial: Bytes)

  function SplitLines(b: Bytes): Lines
    decreases |b|
  {
    var index := IndexOf(b);
    if index.None? then Lines([], b)
    else
      var rest := SplitLines(b[index.value + 1..]);
      Lines([b[..index.value]] + rest.whole, rest.partial)
  }

  function JoinLines(l: Lines): Bytes
    decreases |l.whole|
  {
    if l.whole == [] then l.partial else l.whole[0] + [NEWLINE] + JoinLines(Lines(l.whole[1..], l.partial))
  }

  /** The split is the only one: the lines hold no newline, and joined are the stream. */
  lemma {:induction false} SplitIsExact(b: Bytes)
    ensures var l := SplitLines(b);
            && JoinLines(l) == b && NEWLINE !in l.partial
            && forall k :: 0 <= k < |l.whole| ==> NEWLINE !in l.whole[k]
    decreases |b|
  {
    hide IndexOf;
    var index := IndexOf(b);
    if index.Some? {
      var rest := b[index.value + 1..];
      SplitIsExact(rest);
      OneMoreLine(b[..index.value], SplitLines(rest));
      assert b == b[..index.value] + [NEWLINE] + rest;
    }
  }

  lemma {:induction false} OneMoreLine(line: Bytes, l: Lines)
    requires NEWLINE !in line && forall k :: 0 <= k < |l.whole| ==> NEWLINE !in l.whole[k]
    ensures var m := Lines([line] + l.whole, l.partial);
            JoinLines(m) == line + [NEWLINE] + JoinLines(l) && forall k :: 0 <= k < |m.whole| ==> NEWLINE !in m.whole[k]
  {
    assert ([line] + l.whole)[1..] == l.whole;
  }

  predicate Fits(line: Bytes) { |line| <= MAX_LINE_BYTES }

  /** The lines that are handed over: those that are not blank. */
  function NotBlank(lines: seq<Bytes>): seq<string> {
    if lines == [] then []
    else
      var first := Trimmed(lines[0]);
      (if |first| > 0 then [first] else []) + NotBlank(lines[1..])
  }

  /** The first k lines taken, each within the limit, those not blank handed over;
      and why it is no more than k. */
  ghost predicate ServedThrough(handed: seq<string>, l: Lines, k: nat, throws: set<nat>, s: Served) {
    && k <= |l.whole| && (forall j :: 0 <= j < k ==> Fits(l.whole[j]))
    && s.handed == handed + NotBlank(l.whole[..k])
    && match s.status
       case Open => k == |l.whole| && Fits(l.partial) && s.rest == l.partial && NoneThrows(|handed|, |s.handed|, throws)
       case TooLong =>
         !Fits(if k < |l.whole| then l.whole[k] else l.partial) && s.rest == []
             && NoneThrows(|handed|, |s.handed|, throws)
       case Failed =>
         k > 0 && |Trimmed(l.whole[k - 1])| > 0 && s.rest == []
         && |s.handed| > |handed| && |s.handed| - 1 in throws && NoneThrows(|handed|, |s.handed| - 1, throws)
  }

  ghost predicate NoneThrows(from: nat, to: nat, throws: set<nat>) { forall n :: from <= n < to ==> n !in throws }

  /** The loop over a buffer serves it as the lines of the whole stream: every line
      up to and including the limit, up to the first that is longer, in order. */
  lemma {:induction false} DrainServesLines(handed: seq<string>, b: Bytes, throws: set<nat>) returns (k: nat)
    ensures ServedThrough(handed, SplitLines(b), k, throws, Drain(handed, b, throws))
    decreases |b|
  {
    hide ServedThrough;
    var index := IndexOf(b);
    if index.None? || index.value > MAX_LINE_BYTES {
      k := 0;
      ServedNone(handed, b, throws);
    } else {
      var line, rest := Trimmed(b[..index.value]), b[index.value + 1..];
      if |line| > 0 && |handed| in throws {
        k := 1;
        ServedThrown(handed, b, throws);
      } else {
        var taken := if |line| > 0 then handed + [line] else handed;
        k := DrainServesLines(taken, rest, throws);
        ServedNext(handed, taken, SplitLines(b), SplitLines(rest), k, throws, Drain(taken, rest, throws));
        k := k + 1;
      }
    }
  }

  lemma {:induction false} ServedNone(handed: seq<string>, b: Bytes, throws: set<nat>)
    requires IndexOf(b).None? || IndexOf(b).value > MAX_LINE_BYTES
    ensures ServedThrough(handed, SplitLines(b), 0, throws, Drain(handed, b, throws))
  {
    assert handed + NotBlank(SplitLines(b).whole[..0]) == handed;
  }

  lemma {:induction false} ServedThrown(handed: seq<string>, b: Bytes, throws: set<nat>)
    requires IndexOf(b).Some? && IndexOf(b).value <= MAX_LINE_BYTES
    requires |Trimmed(b[..IndexOf(b).value])| > 0 && |handed| in throws
    ensures ServedThrough(handed, SplitLines(b), 1, throws, Drain(handed, b, throws))
  {
    var first, l := b[..IndexOf(b).value], SplitLines(b);
    assert l.whole[..1] == [first];
    assert NotBlank([first][1..]) == [];
    assert NotBlank(l.whole[..1]) == [Trimmed(first)];
  }

  /** A line taken before the lines of m. */
  lemma {:induction false} ServedNext(
      handed: seq<string>, taken: seq<string>, l: Lines, m: Lines, k: nat, throws: set<nat>, s: Served)
    requires |l.whole| > 0 && l.whole[1..] == m.whole && l.partial == m.partial && Fits(l.whole[0])
    requires taken == if |Trimmed(l.whole[0])| > 0 then handed + [Trimmed(l.whole[0])] else handed
    requires |taken| > |handed| ==> |handed| !in throws
    requires ServedThrough(taken, m, k, throws, s)
    ensures ServedThrough(handed, l, k + 1, throws, s)
  {
    var first := l.whole[..k + 1];
    assert first[1..] == m.whole[..k] && first[0] == l.whole[0];
    assert forall j :: 0 < j < |l.whole| ==> l.whole[j] == m.whole[j - 1];
    assert handed + NotBlank(first) == taken + NotBlank(m.whole[..k]);
  }

  /** A whole connection: whatever the chunks, it is served as the lines of all of
      them together. */
  lemma {:induction false} StreamIsServedAsLines(chunks: seq<Bytes>, throws: set<nat>) returns (k: nat)
    ensures ServedThrough([], SplitLines(Concat(chunks)), k, throws, OnChunks(NEW, chunks, throws))
  {
    ChunksTogether([], [], chunks, throws);
    assert [] + Concat(chunks) == Concat(chunks);
    k := DrainServesLines([], Concat(chunks), throws);
  }
}
