/**
 * The text of one system's journal (apps/signer/src/state.ts, record and the
 * reading half of receipts): receipts one per line, behind which crashes may
 * have left lines cut short and whole lines never answered for.
 */
module Journal {
  import opened Prelude
  import opened Receipts

  /** JSON.stringify of a receipt, and JSON.parse with safeParseReceipt. */
  const ENCODE: Receipt -> string
  const DECODE: string -> Option<Receipt>

  function Encode(r: Receipt): string { ENCODE(r) }

  function Decode(line: string): Option<Receipt> { DECODE(line) }

  const NEWLINE: char := '\n'

  /** What the journal needs of JSON: one line, read back as written, and no
      proper beginning of it readable as a receipt. */
  ghost predicate JsonLines() {
    && (forall r :: Encode(r) != "" && NEWLINE !in Encode(r) && Decode(Encode(r)) == Some(r))
    && (forall r, n: nat :: n < |Encode(r)| ==> Decode(Encode(r)[..n]) == None)
  }

  function FirstNewline(text: string): (i: nat)
    requires NEWLINE in text
    ensures i < |text| && text[i] == NEWLINE && NEWLINE !in text[..i]
  {
    if text[0] == NEWLINE then 0
    else
      var i := FirstNewline(text[1..]);
      assert text[..i + 1] == [text[0]] + text[1..][..i];
      i + 1
  }

  /** What a line says about a system: one receipt of it, or nothing. */
  function LineEntry(id: SystemId, line: string): seq<Receipt> {
    if line == "" then []
    else
      var r := Decode(line);
      if r.Some? && r.value.body.systemId == id then [r.value] else []
  }

  /** The receipts a journal's text holds for a system, in line order. */
  function Entries(id: SystemId, text: string): seq<Receipt> {
    if NEWLINE in text then
      var i := FirstNewline(text);
      LineEntry(id, text[..i]) + Entries(id, text[i + 1..])
    else LineEntry(id, text)
  }

  /** The entry read last for a position: a later line replaces an earlier one. */
  function LastAt(entries: seq<Receipt>, s: nat): (r: Option<Receipt>)
    ensures r.Some? ==> r.value in entries && r.value.body.seq_ == s
    ensures r.None? ==> forall e :: e in entries ==> e.body.seq_ != s
  {
    if entries == [] then None
    else
      var last := entries[|entries| - 1];
      assert entries == entries[..|entries| - 1] + [last];
      if last.body.seq_ == s then Some(last) else LastAt(entries[..|entries| - 1], s)
  }

  lemma {:induction false} LastAtSnoc(entries: seq<Receipt>, r: Receipt, s: nat)
    ensures LastAt(entries + [r], s) == if r.body.seq_ == s then Some(r) else LastAt(entries, s)
  {
    assert (entries + [r])[..|entries|] == entries;
  }

  // ----- what record appends -----

  predicate Terminated(text: string) { text == "" || text[|text| - 1] == NEWLINE }

  /** A newline goes first when the last line was cut short. */
  function Separator(text: string): string { if Terminated(text) then "" else [NEWLINE] }

  function Appended(text: string, r: Receipt): string { Separator(text) + Encode(r) + [NEWLINE] }

  lemma {:induction false} FirstNewlineIs(text: string, i: nat)
    requires i < |text| && text[i] == NEWLINE && NEWLINE !in text[..i]
    ensures NEWLINE in text && FirstNewline(text) == i
  {
    var j := FirstNewline(text);
    assert forall k :: 0 <= k < i ==> text[k] == text[..i][k];
    assert forall k :: 0 <= k < j ==> text[k] == text[..j][k];
  }

  lemma {:induction false} EntriesUnfold(id: SystemId, line: string, rest: string)
    requires NEWLINE !in line
    ensures Entries(id, line + [NEWLINE] + rest) == LineEntry(id, line) + Entries(id, rest)
  {
    var text := line + [NEWLINE] + rest;
    assert text[..|line|] == line;
    FirstNewlineIs(text, |line|);
    assert text[|line| + 1..] == rest;
  }

  ghost predicate ReadApart(id: SystemId, text: string, more: string) {
    Entries(id, text + more) == Entries(id, text) + Entries(id, more)
  }

  /** After a whole line, what follows is read by itself. */
  lemma {:induction false} EntriesAfterTerminated(id: SystemId, text: string, more: string)
    requires Terminated(text)
    ensures ReadApart(id, text, more)
    decreases |text|
  {
    if text == "" {
      assert text + more == more;
      assert Entries(id, text) == [];
    } else {
      var line, rest := FirstLine(text);
      EntriesAfterTerminated(id, rest, more);
      EntriesRegroup(id, line, rest, more);
    }
  }

  lemma {:induction false} FirstLine(text: string) returns (line: string, rest: string)
    requires text != "" && Terminated(text)
    ensures text == line + [NEWLINE] + rest && NEWLINE !in line && Terminated(rest)
  {
    var i := FirstNewline(text);
    line, rest := text[..i], text[i + 1..];
  }

  lemma {:induction false} EntriesRegroup(id: SystemId, line: string, rest: string, more: string)
    requires NEWLINE !in line && ReadApart(id, rest, more)
    ensures ReadApart(id, line + [NEWLINE] + rest, more)
  {
    hide Entries, LineEntry;
    var l, e, f := LineEntry(id, line), Entries(id, rest), Entries(id, more);
    var text := line + [NEWLINE] + rest;
    assert Entries(id, text) == l + e by { EntriesUnfold(id, line, rest); }
    assert Entries(id, text + more) == l + (e + f) by {
      EntriesUnfold(id, line, rest + more);
      assert text + more == line + [NEWLINE] + (rest + more);
    }
    Regroup(l, e, f);
  }

  lemma {:induction false} Regroup<T>(a: seq<T>, b: seq<T>, c: seq<T>)
    ensures a + (b + c) == a + b + c
  {
  }

  /** Ending the last line changes nothing that is read. */
  lemma {:induction false} EntriesTerminate(id: SystemId, text: string)
    ensures Entries(id, text + [NEWLINE]) == Entries(id, text)
    decreases |text|
  {
    if NEWLINE in text {
      var i := FirstNewline(text);
      var line, rest := text[..i], text[i + 1..];
      assert text == line + [NEWLINE] + rest;
      assert text + [NEWLINE] == line + [NEWLINE] + (rest + [NEWLINE]);
      EntriesUnfold(id, line, rest);
      EntriesUnfold(id, line, rest + [NEWLINE]);
      EntriesTerminate(id, rest);
    } else {
      assert text + [NEWLINE] == text + [NEWLINE] + "";
      EntriesUnfold(id, text, "");
    }
  }

  /** However much of a line reached the file, it reads as that receipt or as nothing. */
  lemma {:induction false} EntriesOfPartialLine(id: SystemId, r: Receipt, n: nat)
    requires JsonLines() && r.body.systemId == id && n <= |Encode(r)| + 1
    ensures Entries(id, (Encode(r) + [NEWLINE])[..n]) == if n >= |Encode(r)| then [r] else []
  {
    var line := Encode(r);
    var text := (line + [NEWLINE])[..n];
    if n <= |line| {
      assert text == line[..n];
      assert NEWLINE !in line[..n];
      assert line[..|line|] == line;
    } else {
      assert text == line + [NEWLINE] + "";
      EntriesUnfold(id, line, "");
    }
  }

  /** Any beginning of what record appends adds the receipt, or nothing; the
      whole of it adds the receipt. This holds after any text, torn or not. */
  lemma {:induction false} PartialAppend(id: SystemId, text: string, r: Receipt, n: nat)
    requires JsonLines() && r.body.systemId == id && n <= |Appended(text, r)|
    ensures var now := Entries(id, text + Appended(text, r)[..n]);
            now == Entries(id, text) || now == Entries(id, text) + [r]
    ensures n == |Appended(text, r)| ==> Entries(id, text + Appended(text, r)[..n]) == Entries(id, text) + [r]
  {
    hide Entries, JsonLines, Encode;
    var line := Encode(r) + [NEWLINE];
    if Terminated(text) {
      assert Appended(text, r) == line;
      EntriesAfterTerminated(id, text, line[..n]);
      EntriesOfPartialLine(id, r, n);
    } else if n == 0 {
      assert text + Appended(text, r)[..0] == text;
    } else {
      assert text + Appended(text, r)[..n] == text + [NEWLINE] + line[..n - 1] by {
        assert Appended(text, r) == [NEWLINE] + line;
      }
      assert Entries(id, text + [NEWLINE] + line[..n - 1]) == Entries(id, text) + Entries(id, line[..n - 1]) by {
        EntriesAfterTerminated(id, text + [NEWLINE], line[..n - 1]);
        EntriesTerminate(id, text);
      }
      EntriesOfPartialLine(id, r, n - 1);
    }
  }

  /** What a journal must say of a chain that began with `from` receipts already
      signed elsewhere: nothing of those, and of every later one the last word. */
  ghost predicate Holds(entries: seq<Receipt>, chain: seq<Receipt>, from: nat) {
    forall s: nat :: LastAt(entries, s) == None || s >= |chain| || (from <= s && LastAt(entries, s) == Some(chain[s]))
  }

  ghost predicate Complete(entries: seq<Receipt>, chain: seq<Receipt>, from: nat) {
    forall s: nat :: from <= s < |chain| ==> LastAt(entries, s) == Some(chain[s])
  }

  lemma {:induction false} HoldsUnderAppend(entries: seq<Receipt>, chain: seq<Receipt>, from: nat, r: Receipt)
    requires Holds(entries, chain, from) && Complete(entries, chain, from) && r.body.seq_ == |chain| >= from
    ensures Holds(entries + [r], chain, from) && Complete(entries + [r], chain, from)
    ensures Holds(entries + [r], chain + [r], from) && Complete(entries + [r], chain + [r], from)
  {
    forall s: nat
      ensures LastAt(entries + [r], s) == if r.body.seq_ == s then Some(r) else LastAt(entries, s)
    {
      LastAtSnoc(entries, r, s);
    }
  }
}
