/** The asynchronous logger: producers fill buffers, one thread takes them over, writes and recycles them. The
    critical sections and the steps of the thread between them are interleaved in any order. */
module AsyncLoggings {
  import opened FixedBuffers
  import Decimal
  import opened LogModel

  /** Where the thread is: before its critical section, behind it, or about to write a buffer. */
  datatype Phase = Waiting | Taken | Writing(i: nat)

  function Opt(b: FixedBuffer?): seq<FixedBuffer> {
    if b == null then [] else [b]
  }

  ghost predicate IsEmpty(b: FixedBuffer?)
    reads *
  {
    b != null ==> b.Valid() && b.Contents() == ""
  }

  class AsyncLogging {
    const SIZE: nat
    var currentBuffer_: FixedBuffer
    var nextBuffer_: FixedBuffer?
    var buffers_: seq<FixedBuffer>
    // The locals of the thread.
    var newBuffer1: FixedBuffer?
    var newBuffer2: FixedBuffer?
    var buffersToWrite: seq<FixedBuffer>
    var output: string
    var phase: Phase
    ghost var log: Log
    /** Every buffer ever in use, and its storage. */
    ghost var repr: set<object>

    /** All buffers in use besides the current one. */
    ghost function Others(): seq<FixedBuffer>
      reads this`nextBuffer_, this`buffers_, this`newBuffer1, this`newBuffer2, this`buffersToWrite
    {
      Opt(nextBuffer_) + buffers_ + Opt(newBuffer1) + Opt(newBuffer2) + buffersToWrite
    }

    /** All buffers in use. */
    ghost function Live(): seq<FixedBuffer>
      reads this`currentBuffer_, this`nextBuffer_, this`buffers_, this`newBuffer1, this`newBuffer2, this`buffersToWrite
    {
      [currentBuffer_] + Others()
    }

    function Done(): nat
      reads this`phase
    {
      if phase.Writing? then phase.i else 0
    }

    /** The buffers in use are distinct objects of the full size. */
    ghost predicate Pool()
      reads this`currentBuffer_, this`nextBuffer_, this`buffers_, this`newBuffer1, this`newBuffer2, this`buffersToWrite,
            this`repr
    {
      Apart(Live()) && Owned(Live(), SIZE, repr)
    }

    /** A missing spare buffer means that buffers were put aside, so that two can always be recycled. */
    ghost predicate Spares()
      reads this`nextBuffer_, this`buffers_, this`newBuffer1, this`newBuffer2, this`buffersToWrite, this`phase
    {
      && (nextBuffer_ == null ==> buffers_ != [])
      && (phase.Waiting? ==> newBuffer1 != null && newBuffer2 != null && buffersToWrite == [])
      && (!phase.Waiting? ==> newBuffer1 == null && buffersToWrite != [] && Done() <= |buffersToWrite|)
      && (!phase.Waiting? && newBuffer2 == null ==> |buffersToWrite| >= 2)
    }

    /** The current buffer holds the current lines. */
    ghost predicate CurrentHolds()
      reads *
    {
      currentBuffer_.Valid() && currentBuffer_.Contents() == Text(log.current)
    }

    /** The buffers put aside hold their lines. */
    ghost predicate QueueHolds()
      reads *
    {
      && log.queued <= |log.filled| && |buffers_| == log.queued
      && forall i :: 0 <= i < |buffers_| ==> buffers_[i].Valid() && buffers_[i].Contents() == QueuedTexts(log)[i]
    }

    /** The buffers still to be written hold their lines. */
    ghost predicate PendingHold()
      reads *
    {
      && (forall i :: 0 <= i < |log.pending| ==> log.pending[i] < |log.filled|)
      && Done() <= |buffersToWrite| && |buffersToWrite| - Done() == |log.pending|
      && forall i :: Done() <= i < |buffersToWrite| ==>
           buffersToWrite[i].Valid() && buffersToWrite[i].Contents() == PendingTexts(log)[i - Done()]
    }

    ghost predicate Valid()
      reads *
    {
      && Pool() && Spares() && Sound(log)
      && CurrentHolds() && QueueHolds() && PendingHold()
      && IsEmpty(nextBuffer_) && IsEmpty(newBuffer1) && IsEmpty(newBuffer2)
      && output == FileText(log.chunks, log.filled)
    }

    /** The state in which the thread enters its loop. */
    constructor (size: nat)
      ensures Valid() && SIZE == size && log == EMPTY && phase == Waiting && output == "" && fresh(repr)
    {
      hide *;
      SIZE := size;
      currentBuffer_ := new FixedBuffer(size);
      nextBuffer_ := new FixedBuffer(size);
      newBuffer1 := new FixedBuffer(size);
      newBuffer2 := new FixedBuffer(size);
      buffers_, buffersToWrite := [], [];
      output, phase, log := "", Waiting, EMPTY;
      new;
      repr := {currentBuffer_, nextBuffer_, newBuffer1, newBuffer2, currentBuffer_.data, nextBuffer_.data,
               newBuffer1.data, newBuffer2.data};
      StartValid();
    }

    lemma StartValid()
      requires nextBuffer_ != null && newBuffer1 != null && newBuffer2 != null && buffers_ == buffersToWrite == []
      requires output == "" && phase == Waiting && log == EMPTY
      requires currentBuffer_.Valid() && currentBuffer_.Contents() == "" && currentBuffer_.data.Length == SIZE
      requires nextBuffer_.Valid() && nextBuffer_.Contents() == "" && nextBuffer_.data.Length == SIZE
      requires newBuffer1.Valid() && newBuffer1.Contents() == "" && newBuffer1.data.Length == SIZE
      requires newBuffer2.Valid() && newBuffer2.Contents() == "" && newBuffer2.data.Length == SIZE
      requires currentBuffer_ != nextBuffer_ && currentBuffer_ != newBuffer1 && currentBuffer_ != newBuffer2
      requires nextBuffer_ != newBuffer1 && nextBuffer_ != newBuffer2 && newBuffer1 != newBuffer2
      requires currentBuffer_.data != nextBuffer_.data && currentBuffer_.data != newBuffer1.data
      requires currentBuffer_.data != newBuffer2.data && nextBuffer_.data != newBuffer1.data
      requires nextBuffer_.data != newBuffer2.data && newBuffer1.data != newBuffer2.data
      requires currentBuffer_ in repr && nextBuffer_ in repr && newBuffer1 in repr && newBuffer2 in repr
      requires currentBuffer_.data in repr && nextBuffer_.data in repr && newBuffer1.data in repr
      requires newBuffer2.data in repr
      ensures Valid()
    {
      hide Sound, Text, FileText, Apart, Owned, QueuedTexts, PendingTexts, Live, Others, Opt;
      EmptyStart();
      LiveParts();
      FourApart(currentBuffer_, nextBuffer_, newBuffer1, newBuffer2, SIZE, repr);
    }

    /** The current buffer is none of the others and shares its storage with none. */
    lemma CurrentApart()
      requires Pool()
      ensures forall b :: b in Others() ==> b != currentBuffer_ && b.data != currentBuffer_.data
      ensures forall b :: b in buffers_ ==> b in Others()
      ensures forall b :: b in buffersToWrite ==> b in Others()
      ensures nextBuffer_ != null ==> nextBuffer_ in Others()
      ensures newBuffer1 != null ==> newBuffer1 in Others()
      ensures newBuffer2 != null ==> newBuffer2 in Others()
    {
      ApartSplit([currentBuffer_], Others());
      assert currentBuffer_ in [currentBuffer_];
    }

    lemma CurrentSize()
      requires Pool()
      ensures currentBuffer_.data.Length == SIZE
    {
      assert Live()[0] == currentBuffer_;
    }

    /** `append` on the current buffer. */
    method AppendCurrent(line: string)
      requires Valid()
      modifies this`log, currentBuffer_`cur, currentBuffer_.data
      ensures Valid() && log == KeptIfFits(old(log), line, SIZE)
    {
      hide Sound, Text, FileText, QueuedTexts, PendingTexts, Pool, Live, Others, Opt, Spares;
      KeptTexts(log, line);
      CurrentApart();
      CurrentSize();
      ghost var fits := Fits(log, line, SIZE);
      currentBuffer_.Append(line);
      log := KeptIfFits(log, line, SIZE);
    }

    /** Moves the spare buffer, or a new one, into the place of the current one, which is put aside. */
    method MoveSpare()
      requires Pool()
      modifies this`buffers_, this`currentBuffer_, this`nextBuffer_, this`repr
      ensures fresh(repr - old(repr))
      ensures Pool() && buffers_ == old(buffers_) + [old(currentBuffer_)] && nextBuffer_ == null
      ensures old(nextBuffer_) != null ==> currentBuffer_ == old(nextBuffer_)
      ensures old(nextBuffer_) == null ==> fresh(currentBuffer_) && fresh(currentBuffer_.data)
      ensures old(nextBuffer_) == null ==> currentBuffer_.Valid() && currentBuffer_.Contents() == ""
    {
      hide Apart, Owned, Live, Others, Opt;
      ghost var b, c, n := buffers_, currentBuffer_, Opt(nextBuffer_);
      ghost var rest := Opt(newBuffer1) + Opt(newBuffer2) + buffersToWrite;
      LiveParts();
      buffers_ := buffers_ + [currentBuffer_];
      if nextBuffer_ != null {
        currentBuffer_ := nextBuffer_;
        nextBuffer_ := null;
        LiveParts();
        Exchanged(c, currentBuffer_, b, rest, SIZE, repr);
      } else {
        ghost var s := [c] + [] + b + rest;
        currentBuffer_ := new FixedBuffer(SIZE);
        LiveParts();
        forall y | y in s ensures y != currentBuffer_ && y.data != currentBuffer_.data {
        }
        Replaced(c, currentBuffer_, b, rest, SIZE, repr);
        repr := repr + {currentBuffer_, currentBuffer_.data};
      }
    }

    lemma LiveParts()
      ensures Live() == [currentBuffer_] + Opt(nextBuffer_) + buffers_ +
        (Opt(newBuffer1) + Opt(newBuffer2) + buffersToWrite)
      ensures nextBuffer_ == null ==> Opt(nextBuffer_) == []
      ensures nextBuffer_ != null ==> Opt(nextBuffer_) == [nextBuffer_]
      ensures newBuffer1 == null ==> Opt(newBuffer1) == []
      ensures newBuffer1 != null ==> Opt(newBuffer1) == [newBuffer1]
      ensures newBuffer2 == null ==> Opt(newBuffer2) == []
      ensures newBuffer2 != null ==> Opt(newBuffer2) == [newBuffer2]
    {
    }

    /** Puts the current buffer aside. */
    method Rotate()
      requires Valid()
      modifies this`buffers_, this`currentBuffer_, this`nextBuffer_, this`log, this`repr
      ensures fresh(repr - old(repr))
      ensures Valid() && log == Rotated(old(log))
      ensures old(nextBuffer_) != null ==> currentBuffer_ == old(nextBuffer_)
      ensures old(nextBuffer_) == null ==> fresh(currentBuffer_) && fresh(currentBuffer_.data)
    {
      hide Sound, Text, FileText, QueuedTexts, PendingTexts, Pool;
      RotatedTexts(log);
      MoveSpare();
      log := Rotated(log);
    }

    /** The critical section of a producer. */
    method Append(line: string)
      requires Valid()
      modifies this, repr
      ensures fresh(repr - old(repr)) && phase == old(phase) && output == old(output)
      ensures Valid() && log == Appended(old(log), line, SIZE)
    {
      hide Sound, Text, FileText, Pool, Spares, QueueHolds, PendingHold, Valid;
      CurrentLength();
      CurrentOwned();
      if currentBuffer_.Avail() > |line| {
        AppendCurrent(line);
      } else {
        Rotate();
        CurrentOwned();
        AppendCurrent(line);
      }
    }

    lemma CurrentOwned()
      requires Valid()
      ensures currentBuffer_ in repr && currentBuffer_.data in repr
    {
      assert Live()[0] == currentBuffer_;
    }

    lemma CurrentLength()
      requires Valid()
      ensures currentBuffer_.Avail() == SIZE - |Text(log.current)|
    {
      CurrentSize();
    }

    /** The critical section of the thread: all filled buffers are taken over, and the spares move up. */
    method Swap()
      requires Valid() && phase == Waiting
      modifies this
      ensures Valid() && log == Swapped(old(log)) && phase == Taken && output == old(output) && repr == old(repr)
    {
      hide Sound, Text, FileText, QueuedTexts, PendingTexts, Pool, Live, Others, Opt;
      assert newBuffer1 != null && newBuffer1.Length() == 0;
      assert newBuffer2 != null && newBuffer2.Length() == 0;
      assert buffersToWrite == [];
      SwappedTexts(log);
      MoveBuffers();
      log := Swapped(log);
      phase := Taken;
      assert buffersToWrite != [];
    }

    method MoveBuffers()
      requires Pool() && Spares() && phase == Waiting
      modifies this`buffers_, this`currentBuffer_, this`nextBuffer_, this`newBuffer1, this`newBuffer2,
        this`buffersToWrite
      ensures Pool() && buffersToWrite == old(buffers_) + [old(currentBuffer_)] && buffers_ == []
      ensures currentBuffer_ == old(newBuffer1) && newBuffer1 == null
      ensures old(nextBuffer_) != null ==> nextBuffer_ == old(nextBuffer_) && newBuffer2 == old(newBuffer2)
      ensures old(nextBuffer_) == null ==> nextBuffer_ == old(newBuffer2) && newBuffer2 == null
    {
      hide Apart, Owned, Live, Others, Opt;
      LiveParts();
      Swapping(currentBuffer_, nextBuffer_, buffers_, newBuffer1, newBuffer2, SIZE, repr);
      buffers_ := buffers_ + [currentBuffer_];
      currentBuffer_ := newBuffer1;
      newBuffer1 := null;
      buffersToWrite, buffers_ := buffers_, buffersToWrite;
      if nextBuffer_ == null {
        nextBuffer_ := newBuffer2;
        newBuffer2 := null;
      }
      LiveParts();
    }

    /** More than 25 buffers: a notice goes to the file, and all but the first two are dropped. */
    method DropBuffers()
      requires Valid() && phase == Taken
      modifies this
      ensures Valid() && log == Trimmed(old(log)) && phase == Writing(0) && repr == old(repr)
      ensures output == old(output) +
        if |old(log).pending| > MAX_BUFFERS then NoticeText(|old(log).pending| - 2) else ""
    {
      hide Sound, Text, FileText, QueuedTexts, PendingTexts, Pool, Live, Others, Opt, NoticeText;
      TrimmedTexts(log);
      if |buffersToWrite| > MAX_BUFFERS {
        output := output + NoticeText(|buffersToWrite| - 2);
        KeepFirstTwo();
      } else {
        assert output + "" == output;
      }
      log := Trimmed(log);
      phase := Writing(0);
    }

    method KeepFirstTwo()
      requires Pool() && |buffersToWrite| > 2
      modifies this`buffersToWrite
      ensures Pool() && buffersToWrite == old(buffersToWrite)[..2]
    {
      hide Apart, Owned, Live, Others, Opt;
      LiveParts();
      ghost var front := [currentBuffer_] + Opt(nextBuffer_) + buffers_ + (Opt(newBuffer1) + Opt(newBuffer2));
      FrontAndBack([currentBuffer_] + Opt(nextBuffer_) + buffers_, Opt(newBuffer1) + Opt(newBuffer2), buffersToWrite);
      Dropping(front, buffersToWrite, 2, SIZE, repr);
      buffersToWrite := buffersToWrite[..2];
      LiveParts();
      FrontAndBack([currentBuffer_] + Opt(nextBuffer_) + buffers_, Opt(newBuffer1) + Opt(newBuffer2), buffersToWrite);
    }

    /** Writes the next buffer to the file. */
    method WriteBuffer()
      requires Valid() && phase.Writing? && phase.i < |buffersToWrite|
      modifies this
      ensures Valid() && old(log).pending != [] && log == WroteOne(old(log)) && phase == Writing(old(phase).i + 1)
      ensures repr == old(repr) && buffersToWrite == old(buffersToWrite)
    {
      hide Sound, Text, FileText, QueuedTexts, PendingTexts, Pool, Live, Others, Opt;
      WroteOneTexts(log);
      var i := phase.i;
      output := output + buffersToWrite[i].data[..buffersToWrite[i].Length()];
      log := WroteOne(log);
      phase := Writing(i + 1);
    }

    /** At most two of the written buffers are emptied and kept as spares; the others are released. */
    method Recycle()
      requires Valid() && phase.Writing? && phase.i == |buffersToWrite|
      modifies this, buffersToWrite`cur
      ensures Valid() && log == old(log) && phase == Waiting && output == old(output) && repr == old(repr)
    {
      hide Sound, Text, FileText, QueuedTexts, PendingTexts, Pool;
      RecycleBuffers();
      phase := Waiting;
    }

    method RecycleBuffers()
      requires Pool() && newBuffer1 == null && buffersToWrite != [] && IsEmpty(newBuffer2)
      requires newBuffer2 == null ==> |buffersToWrite| >= 2
      modifies this`newBuffer1, this`newBuffer2, this`buffersToWrite, buffersToWrite`cur
      ensures Pool() && buffersToWrite == []
      ensures newBuffer1 != null && IsEmpty(newBuffer1) && newBuffer2 != null && IsEmpty(newBuffer2)
      ensures currentBuffer_.cur == old(currentBuffer_.cur) && forall b :: b in buffers_ ==> b.cur == old(b.cur)
      ensures nextBuffer_ != null ==> nextBuffer_.cur == old(nextBuffer_.cur)
    {
      hide Pool;
      if |buffersToWrite| > 2 {
        KeepFirstTwo();
      }
      assert buffersToWrite != [];
      RecycleFirst();
      if newBuffer2 == null {
        assert buffersToWrite != [];
        RecycleSecond();
      }
      ReleaseRest();
    }

    method RecycleFirst()
      requires Pool() && newBuffer1 == null && buffersToWrite != []
      modifies this`newBuffer1, this`buffersToWrite, buffersToWrite`cur
      ensures Pool() && newBuffer1 != null && IsEmpty(newBuffer1)
      ensures buffersToWrite == old(buffersToWrite)[..|old(buffersToWrite)| - 1]
      ensures currentBuffer_.cur == old(currentBuffer_.cur) && forall b :: b in buffers_ ==> b.cur == old(b.cur)
      ensures nextBuffer_ != null ==> nextBuffer_.cur == old(nextBuffer_.cur)
      ensures newBuffer2 != null ==> newBuffer2.cur == old(newBuffer2.cur)
    {
      hide Apart, Owned, Live, Others, Opt;
      ghost var a, q, w := [currentBuffer_] + Opt(nextBuffer_) + buffers_, Opt(newBuffer2), buffersToWrite;
      LiveParts();
      newBuffer1 := buffersToWrite[|buffersToWrite| - 1];
      buffersToWrite := buffersToWrite[..|buffersToWrite| - 1];
      LiveParts();
      assert w == buffersToWrite + [newBuffer1];
      FirstTaken(a, q, buffersToWrite, newBuffer1, SIZE, repr);
      NewApart();
      newBuffer1.Reset();
    }

    method RecycleSecond()
      requires Pool() && newBuffer1 != null && IsEmpty(newBuffer1) && newBuffer2 == null && buffersToWrite != []
      modifies this`newBuffer2, this`buffersToWrite, buffersToWrite`cur
      ensures Pool() && IsEmpty(newBuffer1) && newBuffer2 != null && IsEmpty(newBuffer2)
      ensures buffersToWrite == old(buffersToWrite)[..|old(buffersToWrite)| - 1]
      ensures currentBuffer_.cur == old(currentBuffer_.cur) && forall b :: b in buffers_ ==> b.cur == old(b.cur)
      ensures nextBuffer_ != null ==> nextBuffer_.cur == old(nextBuffer_.cur)
    {
      hide Apart, Owned, Live, Others, Opt;
      ghost var a, w := [currentBuffer_] + Opt(nextBuffer_) + buffers_, buffersToWrite;
      LiveParts();
      newBuffer2 := buffersToWrite[|buffersToWrite| - 1];
      buffersToWrite := buffersToWrite[..|buffersToWrite| - 1];
      LiveParts();
      assert w == buffersToWrite + [newBuffer2];
      SecondTaken(a, newBuffer1, buffersToWrite, newBuffer2, SIZE, repr);
      NewApart();
      newBuffer2.Reset();
    }

    method ReleaseRest()
      requires Pool()
      modifies this`buffersToWrite
      ensures Pool() && buffersToWrite == []
    {
      hide Apart, Owned, Live, Others, Opt;
      ghost var a, b := [currentBuffer_] + Opt(nextBuffer_) + buffers_, Opt(newBuffer1) + Opt(newBuffer2);
      LiveParts();
      FrontAndBack(a, b, buffersToWrite);
      Dropping(a + b, buffersToWrite, 0, SIZE, repr);
      buffersToWrite := [];
      LiveParts();
      FrontAndBack(a, b, buffersToWrite);
    }

    /** The spares of the thread are none of the others. */
    lemma NewApart()
      requires Pool() && newBuffer1 != null
      ensures newBuffer1 != currentBuffer_ && newBuffer1 != nextBuffer_ && newBuffer1 !in buffers_
      ensures newBuffer1 != newBuffer2
      ensures newBuffer2 != null ==>
        newBuffer2 != currentBuffer_ && newBuffer2 != nextBuffer_ && newBuffer2 !in buffers_
    {
      hide Apart, Live, Others, Opt;
      LiveParts();
      var a, b := [currentBuffer_] + Opt(nextBuffer_) + buffers_, Opt(newBuffer1) + Opt(newBuffer2) + buffersToWrite;
      ApartSplit(a, b);
      assert currentBuffer_ in a && (nextBuffer_ != null ==> nextBuffer_ in a) && forall x :: x in buffers_ ==> x in a;
      assert newBuffer1 in b && (newBuffer2 != null ==> newBuffer2 in b);
      ApartSplit([newBuffer1], Opt(newBuffer2) + buffersToWrite) by {
        assert b == [newBuffer1] + (Opt(newBuffer2) + buffersToWrite);
      }
      assert newBuffer1 in [newBuffer1] && (newBuffer2 != null ==> newBuffer2 in Opt(newBuffer2) + buffersToWrite);
    }

    /** One step of the thread. */
    method ThreadStep()
      requires Valid()
      modifies this, repr
      ensures repr == old(repr)
      ensures Valid() && log == ThreadLog(old(log), old(phase), old(|buffersToWrite|))
    {
      hide Valid, Swapped, Trimmed, WroteOne;
      ReadyToStep();
      WritersOwned();
      match phase
      case Waiting => Swap();
      case Taken => DropBuffers();
      case Writing(i) =>
        if i < |buffersToWrite| {
          WriteBuffer();
        } else {
          Recycle();
        }
    }

    /** Writes all buffers to the file. */
    method WriteBuffers()
      requires Valid() && phase == Writing(0)
      modifies this
      ensures Valid() && log == Drained(old(log)) && phase == Writing(|buffersToWrite|) && repr == old(repr)
    {
      hide *;
      while phase.i < |buffersToWrite|
        invariant Valid() && phase.Writing? && phase.i <= |buffersToWrite| && repr == old(repr)
        invariant Drained(log) == Drained(old(log))
        decreases |buffersToWrite| - phase.i
      {
        ghost var before := log;
        WriteBuffer();
        DrainedNext(before);
      }
      PendingLeft();
      DrainedNothing(log);
    }

    /** One undisturbed round of the thread. Everything that was put aside and the current buffer reach the file, in
        order, as long as that makes at most 25 buffers; otherwise a notice and the first two do. */
    method Round()
      requires Valid() && phase == Waiting
      modifies this, repr
      ensures Valid() && phase == Waiting && buffers_ == [] && currentBuffer_.Contents() == "" && repr == old(repr)
      ensures old(|buffers_|) < 25 ==> output == old(output + ContentsOf(buffers_) + currentBuffer_.Contents())
      ensures old(|buffers_|) >= 25 ==>
        output == old(output) + "Dropped log messages, " + Decimal.Digits(old(|buffers_|) - 1) + " larger buffers\n" +
          old(buffers_[0].Contents() + buffers_[1].Contents())
    {
      hide Valid, Sound, Text, FileText, Flat, Drained, Trimmed, Swapped, WroteOne, QueuedTexts, ContentsOf;
      ghost var l := log;
      RoundStarts();
      Swap();
      DropBuffers();
      WriteBuffers();
      WritersOwned();
      Recycle();
      RoundStarts();
      RoundTexts(l);
    }

    lemma PendingLeft()
      requires Valid()
      ensures |log.pending| == |buffersToWrite| - Done()
      ensures phase.Writing? ==> Done() == phase.i
    {
    }

    /** What waits for the thread, in terms of the log. */
    lemma RoundStarts()
      requires Valid() && phase == Waiting
      ensures Sound(log) && log.pending == [] && log.queued == |buffers_| && log.queued <= |log.filled|
      ensures output == FileText(log.chunks, log.filled) && currentBuffer_.Contents() == Text(log.current)
      ensures forall i :: 0 <= i < |buffers_| ==> buffers_[i].Contents() == QueuedTexts(log)[i]
      ensures ContentsOf(buffers_) == Flat(QueuedTexts(log))
    {
      hide Sound, Text, FileText, Flat, QueuedTexts, PendingTexts, Pool;
      ContentsAre(buffers_, QueuedTexts(log));
    }

    lemma WritersOwned()
      requires Valid()
      ensures forall b :: b in buffersToWrite ==> b in repr
      ensures Sound(log)
    {
      forall b | b in buffersToWrite ensures b in repr {
        assert b in Live();
      }
    }

    lemma ReadyToStep()
      requires Valid()
      ensures Sound(log) && (phase.Writing? ==>
        phase.i <= |buffersToWrite| && (phase.i < |buffersToWrite| ==> log.pending != []))
    {
    }

    /** The file, the buffers still to be written, the buffers put aside and the current buffer together hold every
        accepted line in order, as long as there is no notice of a drop. */
    lemma {:induction false} Conserved()
      requires Valid() && NoNotices(log.chunks)
      ensures Text(log.lines) ==
        output + ContentsOf(buffersToWrite[Done()..]) + ContentsOf(buffers_) + currentBuffer_.Contents()
    {
      hide Sound, Text, FileText;
      NoTextLost(log);
      ContentsAre(buffersToWrite[Done()..], PendingTexts(log));
      ContentsAre(buffers_, QueuedTexts(log));
    }
  }

  /** The contents of a row of buffers, one after the other. */
  ghost function ContentsOf(s: seq<FixedBuffer>): string
    requires forall i :: 0 <= i < |s| ==> s[i].Valid()
    reads *
  {
    if s == [] then "" else ContentsOf(s[..|s| - 1]) + s[|s| - 1].Contents()
  }

  lemma {:induction false} ContentsAre(s: seq<FixedBuffer>, texts: seq<string>)
    requires |s| == |texts| && forall i :: 0 <= i < |s| ==> s[i].Valid() && s[i].Contents() == texts[i]
    ensures ContentsOf(s) == Flat(texts)
  {
    if s != [] {
      ContentsAre(s[..|s| - 1], texts[..|texts| - 1]);
    }
  }

  // Whole runs.

  datatype Step = Line(text: string) | Thread

  /** The lines that are shorter than a buffer, in the order in which they were appended. */
  function Accepted(steps: seq<Step>, size: nat): seq<string> {
    if steps == [] then []
    else
      var last := steps[|steps| - 1];
      Accepted(steps[..|steps| - 1], size) + if last.Line? && |last.text| < size then [last.text] else []
  }

  /** Any interleaving of producers and the thread ends in a state in which all invariants hold. */
  method Run(size: nat, steps: seq<Step>) returns (logger: AsyncLogging)
    ensures logger.Valid() && logger.log.lines == Accepted(steps, size)
  {
    hide AsyncLogging.Valid, Appended;
    logger := new AsyncLogging(size);
    for k := 0 to |steps|
      invariant logger.Valid() && fresh(logger) && fresh(logger.repr) && logger.SIZE == size
      invariant logger.log.lines == Accepted(steps[..k], size)
    {
      assert steps[..k + 1][..k] == steps[..k];
      match steps[k]
      case Line(text) =>
        AppendedLines(logger.log, text, size);
        logger.Append(text);
      case Thread =>
        logger.ReadyToStep();
        logger.ThreadStep();
    }
    assert steps[..|steps|] == steps;
  }

  lemma SameBuffers(s: seq<FixedBuffer>, t: seq<FixedBuffer>, size: nat, repr: set<object>)
    requires Apart(s) && Owned(s, size, repr) && multiset(t) <= multiset(s)
    ensures Apart(t) && Owned(t, size, repr)
  {
    ApartReordered(s, t);
    forall i | 0 <= i < |t| ensures t[i].data.Length == size && t[i] in repr && t[i].data in repr {
      assert t[i] in multiset(t);
      assert t[i] in multiset(s);
    }
  }

  lemma OneMoreBuffer(x: FixedBuffer, s: seq<FixedBuffer>, t: seq<FixedBuffer>, size: nat, repr: set<object>)
    requires Apart(s) && Owned(s, size, repr) && multiset(t) == multiset{x} + multiset(s)
    requires x.data.Length == size && forall b :: b in s ==> b != x && b.data != x.data
    ensures Apart(t) && Owned(t, size, repr + {x, x.data})
  {
    ApartJoin([x], s);
    assert multiset([x] + s) == multiset(t);
    SameBuffers([x] + s, t, size, repr + {x, x.data});
  }

  /** The current buffer goes to the end of the row, and the spare buffer takes its place. */
  lemma Exchanged(c: FixedBuffer, n: FixedBuffer, b: seq<FixedBuffer>, rest: seq<FixedBuffer>, size: nat,
                  repr: set<object>)
    requires Apart([c] + [n] + b + rest) && Owned([c] + [n] + b + rest, size, repr)
    ensures Apart([n] + [] + (b + [c]) + rest) && Owned([n] + [] + (b + [c]) + rest, size, repr)
  {
    hide Apart, Owned;
    var s, t := [c] + [n] + b + rest, [n] + [] + (b + [c]) + rest;
    assert multiset(t) == multiset(s);
    SameBuffers(s, t, size, repr);
  }

  /** The current buffer goes to the end of the row, and a new buffer takes its place. */
  lemma Replaced(c: FixedBuffer, x: FixedBuffer, b: seq<FixedBuffer>, rest: seq<FixedBuffer>, size: nat,
                 repr: set<object>)
    requires Apart([c] + [] + b + rest) && Owned([c] + [] + b + rest, size, repr) && x.data.Length == size
    requires forall y :: y in [c] + [] + b + rest ==> y != x && y.data != x.data
    ensures Apart([x] + [] + (b + [c]) + rest) && Owned([x] + [] + (b + [c]) + rest, size, repr + {x, x.data})
  {
    hide Apart, Owned;
    var s, t := [c] + [] + b + rest, [x] + [] + (b + [c]) + rest;
    assert multiset(t) == multiset{x} + multiset(s);
    OneMoreBuffer(x, s, t, size, repr);
  }

  lemma Swapping(c: FixedBuffer, n: FixedBuffer?, b: seq<FixedBuffer>, n1: FixedBuffer, n2: FixedBuffer, size: nat,
                 repr: set<object>)
    requires Apart([c] + Opt(n) + b + ([n1] + [n2] + [])) && Owned([c] + Opt(n) + b + ([n1] + [n2] + []), size, repr)
    ensures n != null ==>
      Apart([n1] + [n] + [] + ([] + [n2] + (b + [c]))) && Owned([n1] + [n] + [] + ([] + [n2] + (b + [c])), size, repr)
    ensures n == null ==>
      Apart([n1] + [n2] + [] + ([] + [] + (b + [c]))) && Owned([n1] + [n2] + [] + ([] + [] + (b + [c])), size, repr)
  {
    hide Apart, Owned;
    var s := [c] + Opt(n) + b + ([n1] + [n2] + []);
    if n != null {
      var t := [n1] + [n] + [] + ([] + [n2] + (b + [c]));
      assert multiset(t) == multiset(s);
      SameBuffers(s, t, size, repr);
    } else {
      var t := [n1] + [n2] + [] + ([] + [] + (b + [c]));
      assert multiset(t) == multiset(s);
      SameBuffers(s, t, size, repr);
    }
  }

  lemma FirstTaken(a: seq<FixedBuffer>, q: seq<FixedBuffer>, w: seq<FixedBuffer>, x: FixedBuffer, size: nat,
                   repr: set<object>)
    requires Apart(a + ([] + q + (w + [x]))) && Owned(a + ([] + q + (w + [x])), size, repr)
    ensures Apart(a + ([x] + q + w)) && Owned(a + ([x] + q + w), size, repr)
  {
    hide Apart, Owned;
    var s, t := a + ([] + q + (w + [x])), a + ([x] + q + w);
    assert multiset(t) == multiset(s);
    SameBuffers(s, t, size, repr);
  }

  lemma SecondTaken(a: seq<FixedBuffer>, n: FixedBuffer, w: seq<FixedBuffer>, x: FixedBuffer, size: nat,
                    repr: set<object>)
    requires Apart(a + ([n] + [] + (w + [x]))) && Owned(a + ([n] + [] + (w + [x])), size, repr)
    ensures Apart(a + ([n] + [x] + w)) && Owned(a + ([n] + [x] + w), size, repr)
  {
    hide Apart, Owned;
    var s, t := a + ([n] + [] + (w + [x])), a + ([n] + [x] + w);
    assert multiset(t) == multiset(s);
    SameBuffers(s, t, size, repr);
  }

  /** What a step of the thread does to the log, from where the thread is. */
  ghost function ThreadLog(l: Log, phase: Phase, buffers: nat): Log
    requires Sound(l) && (phase.Writing? && phase.i < buffers ==> l.pending != [])
  {
    match phase
    case Waiting => Swapped(l)
    case Taken => Trimmed(l)
    case Writing(i) => if i < buffers then WroteOne(l) else l
  }

  lemma Dropping(front: seq<FixedBuffer>, w: seq<FixedBuffer>, k: nat, size: nat, repr: set<object>)
    requires Apart(front + w) && Owned(front + w, size, repr) && k <= |w|
    ensures Apart(front + w[..k]) && Owned(front + w[..k], size, repr)
  {
    var s, t := front + w, front + w[..k];
    assert t == s[..|front| + k];
  }

  lemma FrontAndBack(a: seq<FixedBuffer>, b: seq<FixedBuffer>, w: seq<FixedBuffer>)
    ensures a + (b + w) == a + b + w
  {
  }

  lemma FourApart(a: FixedBuffer, b: FixedBuffer, c: FixedBuffer, d: FixedBuffer, size: nat, repr: set<object>)
    requires a != b && a != c && a != d && b != c && b != d && c != d
    requires a.data != b.data && a.data != c.data && a.data != d.data && b.data != c.data && b.data != d.data
    requires c.data != d.data
    requires a.data.Length == b.data.Length == c.data.Length == d.data.Length == size
    requires a in repr && b in repr && c in repr && d in repr
    requires a.data in repr && b.data in repr && c.data in repr && d.data in repr
    ensures Apart([a] + [b] + [] + ([c] + [d] + [])) && Owned([a] + [b] + [] + ([c] + [d] + []), size, repr)
  {
    assert [a] + [b] + [] + ([c] + [d] + []) == [a, b, c, d];
  }

  lemma EmptyStart()
    ensures Sound(EMPTY) && Text(EMPTY.current) == "" && FileText(EMPTY.chunks, EMPTY.filled) == ""
    ensures QueuedTexts(EMPTY) == [] && PendingTexts(EMPTY) == []
  {
  }
}
