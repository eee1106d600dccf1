/** Cutting a byte stream into lines while it arrives in blocks, within a budget for the whole and for every line. */
module LineSplitter {

  /** Bytes are written as characters. */
  type Bytes = string

  const NEWLINE := '\n'

  /** The index of the first newline, or -1. */
  function Find(b: Bytes): (k: int)
    ensures -1 <= k < |b|
  {
    if b == [] then -1
    else if b[0] == NEWLINE then 0
    else
      var k := Find(b[1..]);
      if k < 0 then -1 else k + 1
  }

  lemma {:induction false} FindsFirst(b: Bytes)
    ensures Find(b) >= 0 ==> b[Find(b)] == NEWLINE && NEWLINE !in b[..Find(b)]
    ensures Find(b) < 0 ==> NEWLINE !in b
  {
    if b != [] && b[0] != NEWLINE {
      FindsFirst(b[1..]);
      assert b == [b[0]] + b[1..];
      var k := Find(b[1..]);
      if k >= 0 { assert b[..k + 1] == [b[0]] + b[1..][..k]; }
    }
  }

  /** The lines that are over, each with its newline, and what follows the last of them. */
  function Whole(b: Bytes): seq<Bytes> {
    var k := Find(b);
    if k < 0 then [] else [b[..k + 1]] + Whole(b[k + 1..])
  }

  function Rest(b: Bytes): Bytes {
    var k := Find(b);
    if k < 0 then b else Rest(b[k + 1..])
  }

  function Lines(b: Bytes): seq<Bytes> { if Rest(b) == [] then Whole(b) else Whole(b) + [Rest(b)] }

  function Concat(ls: seq<Bytes>): Bytes { if ls == [] then [] else ls[0] + Concat(ls[1..]) }

  /** A line without its newline. */
  function Content(line: Bytes): nat { if line != [] && line[|line| - 1] == NEWLINE then |line| - 1 else |line| }

  predicate Ended(line: Bytes) { line != [] && line[|line| - 1] == NEWLINE && NEWLINE !in line[..|line| - 1] }

  lemma {:induction false} FindIs(b: Bytes, k: nat)
    requires k < |b| && b[k] == NEWLINE && NEWLINE !in b[..k]
    ensures Find(b) == k
  {
    if k > 0 {
      assert b[0] in b[..k] && b[1..][..k - 1] == b[1..k];
      assert forall x :: x in b[1..k] ==> x in b[..k];
      FindIs(b[1..], k - 1);
    }
  }

  lemma FindAppend(a: Bytes, b: Bytes)
    ensures Find(a) >= 0 ==> Find(a + b) == Find(a)
  {
    var k := Find(a);
    FindsFirst(a);
    if k >= 0 {
      assert (a + b)[..k] == a[..k];
      FindIs(a + b, k);
    }
  }

  /** More bytes continue the rest and leave the lines that are over as they are. */
  lemma {:induction false} SplitAppend(a: Bytes, b: Bytes)
    ensures Whole(a + b) == Whole(a) + Whole(Rest(a) + b) && Rest(a + b) == Rest(Rest(a) + b)
    decreases |a|
  {
    var k := Find(a);
    if k >= 0 {
      FindAppend(a, b);
      WholeStep(a);
      WholeStep(a + b);
      CutAppend(a, b, k + 1);
      SplitAppend(a[k + 1..], b);
      Reassociate([a[..k + 1]], Whole(a[k + 1..]), Whole(Rest(a) + b));
    } else {
      NothingWhole(a, b);
    }
  }

  lemma CutAppend(a: Bytes, b: Bytes, n: nat)
    requires n <= |a|
    ensures (a + b)[..n] == a[..n] && (a + b)[n..] == a[n..] + b
  {
  }

  lemma Reassociate(x: seq<Bytes>, y: seq<Bytes>, z: seq<Bytes>)
    ensures x + (y + z) == (x + y) + z
  {
  }

  lemma NothingWhole(a: Bytes, b: Bytes)
    requires Find(a) < 0
    ensures Whole(a) == [] && Rest(a) == a && Whole(a) + Whole(a + b) == Whole(a + b)
  {
  }

  lemma {:induction false} ConcatAppend(a: seq<Bytes>, l: Bytes)
    ensures Concat(a + [l]) == Concat(a) + l
  {
    if a == [] {
      assert a + [l] == [l] && Concat([l]) == l + Concat([]);
    } else {
      assert (a + [l])[1..] == a[1..] + [l];
      ConcatAppend(a[1..], l);
    }
  }

  /** The lines that are over and the rest concatenate to the input. */
  lemma {:induction false} WholeIsSplit(b: Bytes)
    ensures b == Concat(Whole(b)) + Rest(b)
    decreases |b|
  {
    var k := Find(b);
    if k >= 0 {
      WholeIsSplit(b[k + 1..]);
      JoinCons(b[..k + 1], b[k + 1..], Whole(b[k + 1..]), Rest(b[k + 1..]));
      WholeStep(b);
      SplitAt(b, k + 1);
    }
  }

  lemma SplitAt(b: Bytes, n: nat)
    requires n <= |b|
    ensures b == b[..n] + b[n..]
  {
  }

  lemma JoinCons(line: Bytes, tail: Bytes, ls: seq<Bytes>, rest: Bytes)
    requires tail == Concat(ls) + rest
    ensures line + tail == Concat([line] + ls) + rest
  {
    assert ([line] + ls)[1..] == ls;
    assert line + (Concat(ls) + rest) == (line + Concat(ls)) + rest;
  }

  /** Every line that is over ends in its only newline, and the rest has none. */
  lemma {:induction false} WholeIsEnded(b: Bytes)
    ensures NEWLINE !in Rest(b) && forall l :: l in Whole(b) ==> Ended(l)
    decreases |b|
  {
    var k := Find(b);
    FindsFirst(b);
    if k >= 0 {
      WholeIsEnded(b[k + 1..]);
      WholeStep(b);
      assert b[..k + 1][..k] == b[..k];
      assert Ended(b[..k + 1]);
    }
  }

  lemma WholeStep(b: Bytes)
    requires Find(b) >= 0
    ensures var k := Find(b); Whole(b) == [b[..k + 1]] + Whole(b[k + 1..]) && Rest(b) == Rest(b[k + 1..])
  {
  }

  lemma LineContent(b: Bytes)
    requires Find(b) >= 0
    ensures Content(b[..Find(b) + 1]) == Find(b)
  {
    FindsFirst(b);
  }

  lemma LinesAreTheInput(b: Bytes)
    ensures Concat(Lines(b)) == b
    ensures forall n :: 0 <= n < |Lines(b)| ==> Lines(b)[n] != [] && (n < |Lines(b)| - 1 ==> Ended(Lines(b)[n]))
    ensures Lines(b) != [] && !Ended(Lines(b)[|Lines(b)| - 1]) ==> NEWLINE !in Lines(b)[|Lines(b)| - 1]
  {
    WholeIsSplit(b);
    WholeIsEnded(b);
    if Rest(b) != [] { ConcatAppend(Whole(b), Rest(b)); }
    forall n | 0 <= n < |Whole(b)|
      ensures Ended(Lines(b)[n])
    {
      assert Whole(b)[n] in Whole(b);
    }
  }

  ghost predicate TooLong(b: Bytes, maxLine: nat) { exists l :: l in Lines(b) && Content(l) > maxLine }

  ghost predicate SomeWholeTooLong(b: Bytes, maxLine: nat) { exists l :: l in Whole(b) && Content(l) > maxLine }

  /** A line that is over stays too long. */
  lemma WholeStays(a: Bytes, b: Bytes, maxLine: nat)
    requires SomeWholeTooLong(a, maxLine)
    ensures TooLong(a + b, maxLine)
  {
    SplitAppend(a, b);
    var l :| l in Whole(a) && Content(l) > maxLine;
    assert l in Lines(a + b);
  }

  /** The line that an unfinished one becomes. */
  function Continued(c: Bytes): Bytes { var k := Find(c); if k < 0 then c else c[..k + 1] }

  lemma ContinuedIsLine(c: Bytes)
    requires c != []
    ensures Continued(c) in Lines(c) && Content(Continued(c)) == (if Find(c) < 0 then |c| else Find(c))
  {
    FindsFirst(c);
    if Find(c) < 0 {
      assert c[|c| - 1] in c;
      assert Lines(c)[0] == c;
    } else {
      WholeStep(c);
      LineContent(c);
      assert Lines(c)[0] == Continued(c);
    }
  }

  lemma LinesAppend(a: Bytes, b: Bytes)
    ensures Lines(a + b) == Whole(a) + Lines(Rest(a) + b)
  {
    SplitAppend(a, b);
  }

  lemma NoNewlineYet(u: Bytes, b: Bytes)
    requires NEWLINE !in u
    ensures Find(u + b) < 0 || Find(u + b) >= |u|
  {
    FindsFirst(u + b);
    forall j | 0 <= j < |u|
      ensures (u + b)[j] != NEWLINE
    {
      assert u[j] in u;
    }
  }

  /** An unfinished line can only grow. */
  lemma RestGrows(a: Bytes, b: Bytes, maxLine: nat)
    requires |Rest(a)| > maxLine
    ensures TooLong(a + b, maxLine)
  {
    WholeIsEnded(a);
    NoNewlineYet(Rest(a), b);
    ContinuedIsLine(Rest(a) + b);
    LinesAppend(a, b);
    LineInAppended(Whole(a), Lines(Rest(a) + b), Continued(Rest(a) + b));
  }

  lemma LineInAppended(a: seq<Bytes>, b: seq<Bytes>, l: Bytes)
    requires l in b
    ensures l in a + b
  {
  }

  function Read(blocks: seq<Bytes>): Bytes
  {
    if blocks == [] then [] else Read(blocks[..|blocks| - 1]) + blocks[|blocks| - 1]
  }

  lemma {:induction false} ReadSplit(blocks: seq<Bytes>, i: nat)
    requires i <= |blocks|
    ensures exists tail :: Read(blocks) == Read(blocks[..i]) + tail
    decreases |blocks| - i
  {
    if i == |blocks| {
      assert blocks[..i] == blocks && Read(blocks) == Read(blocks) + [];
    } else {
      ReadSplit(blocks, i + 1);
      var tail :| Read(blocks) == Read(blocks[..i + 1]) + tail;
      assert blocks[..i + 1][..i] == blocks[..i];
      assert Read(blocks) == Read(blocks[..i]) + (blocks[i] + tail);
    }
  }

  lemma FoundTooLong(buffer: Bytes, lines: seq<Bytes>, line: Bytes, tail: seq<Bytes>, maxLine: nat)
    requires Whole(buffer) == lines + ([line] + tail) && Content(line) > maxLine
    ensures SomeWholeTooLong(buffer, maxLine) && lines <= Whole(buffer)
  {
    assert Whole(buffer)[|lines|] == line;
  }

  lemma FoundAll(buffer: Bytes, lines: seq<Bytes>, maxLine: nat)
    requires Whole(buffer) == lines && forall l :: l in lines ==> Content(l) <= maxLine
    ensures !SomeWholeTooLong(buffer, maxLine)
  {
  }

  /** The lines that the buffer already holds, taken out one by one. */
  method Drain(buffer: Bytes, maxLine: nat) returns (lines: seq<Bytes>, rest: Bytes, ok: bool)
    ensures ok <==> !SomeWholeTooLong(buffer, maxLine)
    ensures lines <= Whole(buffer) && (ok ==> lines == Whole(buffer) && rest == Rest(buffer))
  {
    lines, rest, ok := [], buffer, true;
    var end := Find(rest);
    while end >= 0
      invariant end == Find(rest)
      invariant Whole(buffer) == lines + Whole(rest) && Rest(buffer) == Rest(rest)
      invariant forall l :: l in lines ==> Content(l) <= maxLine
      decreases |rest|
    {
      WholeStep(rest);
      LineContent(rest);
      var line, after := rest[..end + 1], rest[end + 1..];
      if end > maxLine {
        FoundTooLong(buffer, lines, line, Whole(after), maxLine);
        return lines, rest, false;
      }
      assert lines + ([line] + Whole(after)) == (lines + [line]) + Whole(after);
      lines, rest := lines + [line], after;
      end := Find(rest);
    }
    assert Whole(rest) == [];
    FoundAll(buffer, lines, maxLine);
  }

  /** One more block for the buffer: the lines it completes, and what is left. */
  method Feed(buffer: Bytes, block: Bytes, maxLine: nat, ghost before: Bytes)
    returns (found: seq<Bytes>, rest: Bytes, fits: bool)
    requires buffer == Rest(before) && !SomeWholeTooLong(before, maxLine)
    ensures fits <==> !SomeWholeTooLong(before + block, maxLine) && |Rest(before + block)| <= maxLine
    ensures Whole(before) + found <= Whole(before + block)
    ensures fits ==> Whole(before) + found == Whole(before + block) && rest == Rest(before + block)
  {
    SplitAppend(before, block);
    TooLongAppend(before, block, maxLine);
    found, rest, fits := Drain(buffer + block, maxLine);
    fits := fits && |rest| <= maxLine;
  }

  lemma UnfitStays(after: Bytes, tail: Bytes, maxLine: nat)
    requires SomeWholeTooLong(after, maxLine) || |Rest(after)| > maxLine
    ensures TooLong(after + tail, maxLine)
  {
    if SomeWholeTooLong(after, maxLine) { WholeStays(after, tail, maxLine); } else { RestGrows(after, tail, maxLine); }
  }

  /** Where the reading of some blocks stands within all of them. */
  lemma ReadSoFar(blocks: seq<Bytes>, i: nat, maxLine: nat)
    requires i < |blocks|
    ensures Read(blocks[..i + 1]) == Read(blocks[..i]) + blocks[i]
    ensures |Read(blocks[..i + 1])| <= |Read(blocks)|
    ensures Whole(Read(blocks[..i])) <= Lines(Read(blocks)) && Whole(Read(blocks[..i + 1])) <= Lines(Read(blocks))
    ensures SomeWholeTooLong(Read(blocks[..i + 1]), maxLine) || |Rest(Read(blocks[..i + 1]))| > maxLine ==>
            TooLong(Read(blocks), maxLine)
  {
    assert blocks[..i + 1][..i] == blocks[..i];
    var after := Read(blocks[..i + 1]);
    ReadSplit(blocks, i + 1);
    var tail :| Read(blocks) == after + tail;
    WholePrefix(after, tail);
    ReadSplit(blocks, i);
    var longer :| Read(blocks) == Read(blocks[..i]) + longer;
    WholePrefix(Read(blocks[..i]), longer);
    if SomeWholeTooLong(after, maxLine) || |Rest(after)| > maxLine { UnfitStays(after, tail, maxLine); }
  }

  /** At the end: the unfinished line is the last one. */
  lemma LastLine(all: Bytes, maxLine: nat)
    requires !SomeWholeTooLong(all, maxLine) && |Rest(all)| <= maxLine
    ensures !TooLong(all, maxLine)
  {
    WholeIsEnded(all);
    if Rest(all) != [] { assert Rest(all)[|Rest(all)| - 1] in Rest(all); }
  }

  /** The splitter between two reads. */
  ghost predicate Standing(sofar: Bytes, lines: seq<Bytes>, buffer: Bytes, total: nat, maxLine: nat, maxBytes: nat) {
    && total == |sofar| <= maxBytes && lines == Whole(sofar) && buffer == Rest(sofar)
    && !SomeWholeTooLong(sofar, maxLine) && |buffer| <= maxLine
  }

  ghost predicate WithinBudget(all: Bytes, maxLine: nat, maxBytes: nat) { |all| <= maxBytes && !TooLong(all, maxLine) }

  method TakeBlock(blocks: seq<Bytes>, i: nat, lines: seq<Bytes>, buffer: Bytes, total: nat, maxLine: nat,
                   maxBytes: nat)
    returns (found: seq<Bytes>, rest: Bytes, ok: bool)
    requires i < |blocks| && Standing(Read(blocks[..i]), lines, buffer, total, maxLine, maxBytes)
    ensures ok ==> Standing(Read(blocks[..i + 1]), lines + found, rest, total + |blocks[i]|, maxLine, maxBytes)
    ensures !ok ==> !WithinBudget(Read(blocks), maxLine, maxBytes)
    ensures lines + found <= Lines(Read(blocks))
  {
    ReadSoFar(blocks, i, maxLine);
    if total + |blocks[i]| > maxBytes { return [], buffer, false; }
    found, rest, ok := Feed(buffer, blocks[i], maxLine, Read(blocks[..i]));
  }

  lemma StandsAtEnd(all: Bytes, lines: seq<Bytes>, buffer: Bytes, total: nat, maxLine: nat, maxBytes: nat)
    requires Standing(all, lines, buffer, total, maxLine, maxBytes)
    ensures WithinBudget(all, maxLine, maxBytes) && Lines(all) == if buffer == [] then lines else lines + [buffer]
  {
    LastLine(all, maxLine);
  }

  /** The splitter itself, over blocks that each hold something. `peak` is the most that it ever held. It fails exactly
      if the whole exceeds its budget or some line exceeds its own; the lines do not depend on how the bytes were cut
      into blocks. */
  method Chunks(blocks: seq<Bytes>, maxLine: nat, maxBytes: nat, ghost blockSize: nat)
    returns (lines: seq<Bytes>, ok: bool, peak: nat)
    requires forall b :: b in blocks ==> 0 < |b| <= blockSize
    ensures ok <==> WithinBudget(Read(blocks), maxLine, maxBytes)
    ensures lines <= Lines(Read(blocks)) && (ok ==> lines == Lines(Read(blocks)))
    ensures peak <= maxLine + blockSize
  {
    var buffer: Bytes, total: nat := [], 0;
    lines, ok, peak := [], true, 0;
    var i := 0;
    while i < |blocks|
      invariant 0 <= i <= |blocks|
      invariant Standing(Read(blocks[..i]), lines, buffer, total, maxLine, maxBytes)
      invariant peak <= maxLine + blockSize
    {
      assert blocks[i] in blocks;
      peak := if |buffer| + |blocks[i]| > peak then |buffer| + |blocks[i]| else peak;
      var found, rest;
      found, rest, ok := TakeBlock(blocks, i, lines, buffer, total, maxLine, maxBytes);
      lines := lines + found;
      if !ok { return; }
      buffer, total := rest, total + |blocks[i]|;
      i := i + 1;
    }
    assert blocks[..i] == blocks;
    StandsAtEnd(Read(blocks), lines, buffer, total, maxLine, maxBytes);
    if buffer != [] { lines := lines + [buffer]; }
  }

  lemma WholePrefix(a: Bytes, b: Bytes)
    ensures Whole(a) <= Lines(a + b)
  {
    SplitAppend(a, b);
  }

  lemma TooLongAppend(a: Bytes, b: Bytes, maxLine: nat)
    requires !SomeWholeTooLong(a, maxLine)
    ensures SomeWholeTooLong(a + b, maxLine) <==> SomeWholeTooLong(Rest(a) + b, maxLine)
  {
    SplitAppend(a, b);
  }
}
