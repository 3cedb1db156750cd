/**
 Reading a run's history backwards (bauta/jobs/reporting.py): the block reader
 that yields a file's lines last one first, and the reader of the newest
 records built on it.
 */
module Reporting {
  import opened Wrappers

  type Line = seq<Byte>

  const NEWLINE: Byte := 10

  /** Splitting on newlines, as Python's bytes.split does: one more piece than newlines. */
  function Split(content: Line): (pieces: seq<Line>)
    ensures |pieces| >= 1
  {
    if content == [] then [[]] else Pushed(content[0], Split(content[1..]))
  }

  /** The pieces with one byte put in front. */
  function Pushed(byte: Byte, pieces: seq<Line>): (r: seq<Line>)
    requires |pieces| >= 1
    ensures |r| >= 1
  {
    if byte == NEWLINE then [[]] + pieces else [[byte] + pieces[0]] + pieces[1..]
  }

  /** The inverse of splitting: the pieces with a newline between each two. */
  function Join(pieces: seq<Line>): Line
    requires |pieces| >= 1
  {
    if |pieces| == 1 then pieces[0] else pieces[0] + [NEWLINE] + Join(pieces[1..])
  }

  function Reversed<T>(s: seq<T>): (r: seq<T>)
    ensures |r| == |s|
    ensures forall k :: 0 <= k < |s| ==> r[k] == s[|s| - 1 - k]
  {
    if s == [] then [] else Reversed(s[1..]) + [s[0]]
  }

  lemma {:induction false} ReversedConcat<T>(a: seq<T>, b: seq<T>)
    ensures Reversed(a + b) == Reversed(b) + Reversed(a)
  {
    var left, right := Reversed(a + b), Reversed(b) + Reversed(a);
    forall k | 0 <= k < |left| ensures left[k] == right[k] {
    }
  }

  /** Split is the only way to cut content into newline-free pieces that join back to it. */
  lemma {:induction false} SplitIsTheOnlySplitting(pieces: seq<Line>)
    requires |pieces| >= 1
    requires forall k :: 0 <= k < |pieces| ==> NEWLINE !in pieces[k]
    ensures Split(Join(pieces)) == pieces
    decreases |pieces|, |pieces[0]|
  {
    if pieces[0] != [] {
      var shorter := pieces[0 := pieces[0][1..]];
      SplitIsTheOnlySplitting(shorter);
      assert Join(pieces)[1..] == Join(shorter) by {
        if |pieces| > 1 {
          assert shorter[1..] == pieces[1..];
        }
      }
      assert Join(pieces)[0] == pieces[0][0];
      assert [pieces[0][0]] + shorter[0] == pieces[0];
      assert shorter[1..] == pieces[1..];
    } else if |pieces| > 1 {
      SplitIsTheOnlySplitting(pieces[1..]);
      assert Join(pieces)[1..] == Join(pieces[1..]);
    }
  }

  lemma {:induction false} SplitJoins(content: Line)
    ensures Join(Split(content)) == content
    ensures forall k :: 0 <= k < |Split(content)| ==> NEWLINE !in Split(content)[k]
  {
    if content != [] {
      SplitJoins(content[1..]);
      var rest, all := Split(content[1..]), Split(content);
      if content[0] == NEWLINE {
        assert all[1..] == rest;
      } else {
        assert all[1..] == rest[1..];
      }
    }
  }

  lemma PushedKeepsTail(byte: Byte, pieces: seq<Line>, tail: seq<Line>)
    requires |pieces| >= 1
    ensures Pushed(byte, pieces + tail) == Pushed(byte, pieces) + tail
  {
    assert (pieces + tail)[1..] == pieces[1..] + tail;
  }

  /** Joining a held-back first piece to the block before it is exact. */
  lemma {:induction false} SplitBlock(block: Line, after: Line)
    ensures Split(block + after) == Split(block + Split(after)[0]) + Split(after)[1..]
  {
    var first := Split(after)[0];
    if block == [] {
      SplitJoins(after);
      SplitIsTheOnlySplitting([first]);
      assert Split(first) == [first];
      assert block + after == after && block + first == first;
      assert Split(after) == [first] + Split(after)[1..];
    } else {
      var rest := block[1..];
      SplitBlock(rest, after);
      PushedKeepsTail(block[0], Split(rest + first), Split(after)[1..]);
      assert (block + after)[1..] == rest + after;
      assert (block + first)[1..] == rest + first;
    }
  }

  /** One block more read from the end: its pieces but the first come next, and the first is held back. */
  lemma BlockRead(block: Line, after: Line)
    ensures var pieces := Split(block + Split(after)[0]);
            Split(block + after)[0] == pieces[0] &&
            Reversed(Split(block + after)[1..]) == Reversed(Split(after)[1..]) + Reversed(pieces[1..])
  {
    SplitBlock(block, after);
    var pieces, tail := Split(block + Split(after)[0]), Split(after)[1..];
    assert (pieces + tail)[1..] == pieces[1..] + tail;
    ReversedConcat(pieces[1..], tail);
  }

  /** The generator's whole output: blocks read from the end, each first piece held back. */
  method LinesBackwards(content: Line, blockSize: nat) returns (lines: seq<Line>)
    requires blockSize > 0
    ensures lines == Reversed(Split(content))
  {
    var position := |content|;
    var remainder: Line := [];
    lines := [];
    while position > 0
      invariant 0 <= position <= |content|
      invariant remainder == Split(content[position..])[0]
      invariant lines == Reversed(Split(content[position..])[1..])
    {
      var size := if blockSize < position then blockSize else position;
      ghost var after := content[position..];
      position := position - size;
      var block := content[position..position + size];
      assert content[position..] == block + after;
      BlockRead(block, after);
      var pieces := Split(block + remainder);
      remainder := pieces[0];
      lines := lines + Reversed(pieces[1..]);
    }
    assert content[0..] == content;
    ReversedConcat([remainder], Split(content)[1..]);
    assert [remainder] + Split(content)[1..] == Split(content);
    lines := lines + [remainder];
  }

  datatype Record = Record(job: string, text: Line)

  /** bytes.strip() leaves nothing. */
  predicate IsBlank(line: Line) {
    forall k :: 0 <= k < |line| ==> line[k] in {9, 10, 11, 12, 13, 32}
  }

  predicate Wanted(record: Record, job: Option<string>) {
    job.None? || job.value == record.job
  }

  predicate Readable(lines: seq<Line>, parse: Line -> Option<Record>) {
    forall k :: 0 <= k < |lines| ==> IsBlank(lines[k]) || parse(lines[k]).Some?
  }

  /** A full forward read: the wanted record of every line, in file order. */
  function Records(lines: seq<Line>, job: Option<string>, parse: Line -> Option<Record>): seq<Record>
    requires Readable(lines, parse)
  {
    if lines == [] then []
    else
      var rest := Records(lines[1..], job, parse);
      if IsBlank(lines[0]) || !Wanted(parse(lines[0]).value, job) then rest
      else [parse(lines[0]).value] + rest
  }

  lemma {:induction false} RecordsConcat(a: seq<Line>, b: seq<Line>, job: Option<string>, parse: Line -> Option<Record>)
    requires Readable(a, parse) && Readable(b, parse)
    ensures Readable(a + b, parse)
    ensures Records(a + b, job, parse) == Records(a, job, parse) + Records(b, job, parse)
  {
    if a == [] {
      assert a + b == b;
    } else {
      RecordsConcat(a[1..], b, job, parse);
      assert (a + b)[1..] == a[1..] + b;
    }
  }

  /** Reading the lines backwards reads the records backwards. */
  lemma {:induction false} RecordsReversed(lines: seq<Line>, job: Option<string>, parse: Line -> Option<Record>)
    requires Readable(lines, parse)
    ensures Readable(Reversed(lines), parse)
    ensures Records(Reversed(lines), job, parse) == Reversed(Records(lines, job, parse))
  {
    if lines != [] {
      RecordsReversed(lines[1..], job, parse);
      assert Readable([lines[0]], parse);
      RecordsConcat(Reversed(lines[1..]), [lines[0]], job, parse);
      assert Records([lines[0]], job, parse) + Records(lines[1..], job, parse) == Records(lines, job, parse) by {
        RecordsConcat([lines[0]], lines[1..], job, parse);
        assert [lines[0]] + lines[1..] == lines;
      }
      ReversedConcat(Records([lines[0]], job, parse), Records(lines[1..], job, parse));
      assert Reversed(Records([lines[0]], job, parse)) == Records([lines[0]], job, parse);
    }
  }

  /** How many records a read asked for `limit` returns of `available`: the test
      comes after the append, so never none where there is one. */
  function Returned(limit: int, available: nat): nat {
    if available == 0 then 0 else Min(if limit < 1 then 1 else limit, available)
  }

  lemma RecordsSplit(lines: seq<Line>, k: nat, job: Option<string>, parse: Line -> Option<Record>)
    requires k <= |lines| && Readable(lines, parse)
    ensures Readable(lines[..k], parse) && Readable(lines[k..], parse)
    ensures Records(lines, job, parse) == Records(lines[..k], job, parse) + Records(lines[k..], job, parse)
  {
    assert lines == lines[..k] + lines[k..];
    RecordsConcat(lines[..k], lines[k..], job, parse);
  }

  lemma RecordsNext(lines: seq<Line>, k: nat, job: Option<string>, parse: Line -> Option<Record>)
    requires k < |lines| && Readable(lines[..k], parse)
    requires IsBlank(lines[k]) || parse(lines[k]).Some?
    ensures Readable(lines[..k + 1], parse)
    ensures Records(lines[..k + 1], job, parse) == Records(lines[..k], job, parse) +
            if IsBlank(lines[k]) || !Wanted(parse(lines[k]).value, job) then [] else [parse(lines[k]).value]
  {
    assert lines[..k + 1] == lines[..k] + [lines[k]];
    RecordsConcat(lines[..k], [lines[k]], job, parse);
  }

  /** A read parsed the first `k` lines and no more, and returns the records
      among them, having stopped early only with enough. */
  ghost predicate StoppedAfter(lines: seq<Line>, k: nat, records: seq<Record>, limit: int, job: Option<string>,
                               parse: Line -> Option<Record>) {
    && k <= |lines|
    && Readable(lines[..k], parse)
    && records == Records(lines[..k], job, parse)
    && |records| == Returned(limit, |records|)
    && (k < |lines| ==> records != [] && |records| >= limit)
  }

  /** Where every line can be read, stopping early returned the newest of them all. */
  lemma StoppedWithTheNewest(lines: seq<Line>, k: nat, records: seq<Record>, limit: int, job: Option<string>,
                             parse: Line -> Option<Record>)
    requires Readable(lines, parse)
    requires StoppedAfter(Reversed(lines), k, records, limit, job, parse)
    ensures var all := Records(lines, job, parse); records == Reversed(all)[..Returned(limit, |all|)]
  {
    RecordsReversed(lines, job, parse);
    RecordsSplit(Reversed(lines), k, job, parse);
    if k == |lines| {
      assert Reversed(lines)[..k] == Reversed(lines);
    }
  }

  /** The loop over the lines read backwards: it stops after the first `k`,
      having collected the records among them. */
  method Newest(lines: seq<Line>, limit: int, job: Option<string>, parse: Line -> Option<Record>)
    returns (result: Result<seq<Record>, string>, k: nat)
    ensures result.Ok? ==> StoppedAfter(lines, k, result.value, limit, job, parse)
    ensures result.Err? ==> k < |lines| && !IsBlank(lines[k]) && parse(lines[k]).None?
  {
    var records: seq<Record> := [];
    k := 0;
    while k < |lines|
      invariant 0 <= k <= |lines|
      invariant Readable(lines[..k], parse)
      invariant records == Records(lines[..k], job, parse)
      invariant records != [] ==> |records| < limit
    {
      if !IsBlank(lines[k]) && parse(lines[k]).None? {
        return Err("not a record"), k;
      }
      RecordsNext(lines, k, job, parse);
      k := k + 1;
      if !IsBlank(lines[k - 1]) && Wanted(parse(lines[k - 1]).value, job) {
        records := records + [parse(lines[k - 1]).value];
        if |records| >= limit {
          return Ok(records), k;
        }
      }
    }
    result := Ok(records);
  }

  /** What a read returns is no more than `limit` records exactly where the
      limit is positive or nothing matches: a limit of zero still returns one. */
  lemma LimitKeptExactlyWhenPositive(lines: seq<Line>, limit: int, job: Option<string>, parse: Line -> Option<Record>)
    requires Readable(lines, parse)
    ensures var all := Records(lines, job, parse);
            |Reversed(all)[..Returned(limit, |all|)]| <= (if limit < 0 then 0 else limit) <==> limit >= 1 || all == []
  {
  }

  /** FileHistory.read: the newest records first. `content` is None where there
      is no file; an unparsable line the read reaches is an error. */
  method Read(content: Option<Line>, limit: int, job: Option<string>, blockSize: nat, parse: Line -> Option<Record>)
    returns (result: Result<seq<Record>, string>)
    requires blockSize > 0
    ensures content.None? ==> result == Ok([])
    ensures content.Some? && Readable(Split(content.value), parse) ==>
              var all := Records(Split(content.value), job, parse);
              result == Ok(Reversed(all)[..Returned(limit, |all|)])
    // An older line past the newest `limit` records is never parsed; one before them fails the read.
    ensures content.Some? && result.Ok? ==>
              exists k :: StoppedAfter(Reversed(Split(content.value)), k, result.value, limit, job, parse)
    ensures content.Some? && result.Err? ==> !Readable(Split(content.value), parse)
  {
    hide Records, Split, StoppedAfter, IsBlank;
    if content.None? {
      return Ok([]);
    }
    var lines := LinesBackwards(content.value, blockSize);
    var k;
    result, k := Newest(lines, limit, job, parse);
    if result.Err? {
      assert lines[k] == Split(content.value)[|lines| - 1 - k];
    } else if Readable(Split(content.value), parse) {
      StoppedWithTheNewest(Split(content.value), k, result.value, limit, job, parse);
    }
  }
}
