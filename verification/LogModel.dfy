/** What the logger has done so far, apart from where its buffers are: lines, filled buffers, and the file. */
module LogModel {
  import Decimal

  /** A piece of the file: the whole contents of a filled buffer, or a notice that buffers were dropped. */
  datatype Chunk = Whole(index: nat) | Notice(count: nat)

  type Lines = seq<string>

  /** `filled` are the lines of every buffer that was ever put aside, oldest first; the last `queued` of them
      still wait in `buffers_`, and `pending` are the ones taken out of it but not yet written. */
  datatype Log = Log(lines: Lines, filled: seq<Lines>, current: Lines, queued: nat, pending: seq<nat>,
                     chunks: seq<Chunk>)

  const EMPTY := Log([], [], [], 0, [], [])

  function Flat<T>(parts: seq<seq<T>>): seq<T> {
    if parts == [] then [] else Flat(parts[..|parts| - 1]) + parts[|parts| - 1]
  }

  /** The text of a sequence of lines. */
  function Text(lines: Lines): string {
    Flat(lines)
  }

  lemma FlatNext<T>(parts: seq<seq<T>>, part: seq<T>)
    ensures Flat(parts + [part]) == Flat(parts) + part
  {
    assert (parts + [part])[..|parts|] == parts;
  }

  lemma {:induction false} FlatAppend<T>(a: seq<seq<T>>, b: seq<seq<T>>)
    ensures Flat(a + b) == Flat(a) + Flat(b)
    decreases |b|
  {
    if b == [] {
      assert a + b == a;
    } else {
      var init, last := b[..|b| - 1], b[|b| - 1];
      FlatAppend(a, init);
      FlatAppendOne(a, init, last);
      assert init + [last] == b;
    }
  }

  lemma FlatAppendOne<T>(a: seq<seq<T>>, init: seq<seq<T>>, last: seq<T>)
    requires Flat(a + init) == Flat(a) + Flat(init)
    ensures Flat(a + (init + [last])) == Flat(a) + Flat(init + [last])
  {
    hide Flat;
    FlatNext(init, last);
    FlatNext(a + init, last);
    assert a + (init + [last]) == a + init + [last];
    assert Flat(a) + (Flat(init) + last) == Flat(a) + Flat(init) + last;
  }

  // The steps.

  /** A line goes into the current buffer. */
  function Kept(l: Log, line: string): Log {
    l.(lines := l.lines + [line], current := l.current + [line])
  }

  /** The current buffer is put aside and an empty one takes its place. */
  function Rotated(l: Log): Log {
    l.(filled := l.filled + [l.current], queued := l.queued + 1, current := [])
  }

  function Fits(l: Log, line: string, size: nat): bool {
    size - |Text(l.current)| > |line|
  }

  function KeptIfFits(l: Log, line: string, size: nat): Log {
    if Fits(l, line, size) then Kept(l, line) else l
  }

  /** A line that does not fit behind the current text goes into a new buffer; one that fills a whole buffer is
      lost. */
  function Appended(l: Log, line: string, size: nat): Log {
    if Fits(l, line, size) then Kept(l, line) else KeptIfFits(Rotated(l), line, size)
  }

  function Range(from: nat, to: nat): (r: seq<nat>)
    requires from <= to
    ensures |r| == to - from && forall i :: 0 <= i < |r| ==> r[i] == from + i
  {
    seq(to - from, i requires 0 <= i => from + i)
  }

  /** The current buffer is put aside too, and all waiting buffers are taken over. */
  function Swapped(l: Log): Log
    requires l.queued <= |l.filled|
  {
    l.(filled := l.filled + [l.current], current := [], queued := 0,
       pending := Range(|l.filled| - l.queued, |l.filled| + 1))
  }

  const MAX_BUFFERS := 25

  /** Too many buffers: all but the first two are dropped, with a notice in the file. */
  function Trimmed(l: Log): Log {
    if |l.pending| > MAX_BUFFERS
    then l.(pending := l.pending[..2], chunks := l.chunks + [Notice(|l.pending| - 2)])
    else l
  }

  function WroteOne(l: Log): Log
    requires l.pending != []
  {
    l.(pending := l.pending[1..], chunks := l.chunks + [Whole(l.pending[0])])
  }

  // The file.

  function NoticeText(count: nat): string {
    "Dropped log messages, " + Decimal.Digits(count) + " larger buffers\n"
  }

  function ChunkText(c: Chunk, filled: seq<Lines>): string {
    match c
    case Notice(count) => NoticeText(count)
    case Whole(index) => if index < |filled| then Text(filled[index]) else ""
  }

  /** The contents of the file. */
  function FileText(chunks: seq<Chunk>, filled: seq<Lines>): string {
    if chunks == [] then ""
    else FileText(chunks[..|chunks| - 1], filled) + ChunkText(chunks[|chunks| - 1], filled)
  }

  /** The filled buffers in the file, in the order in which they were written. */
  function Written(chunks: seq<Chunk>): seq<nat> {
    if chunks == [] then []
    else
      var last := chunks[|chunks| - 1];
      Written(chunks[..|chunks| - 1]) + if last.Whole? then [last.index] else []
  }

  /** How many buffers the notices speak of. */
  function Lost(chunks: seq<Chunk>): nat {
    if chunks == [] then 0
    else
      var last := chunks[|chunks| - 1];
      Lost(chunks[..|chunks| - 1]) + if last.Notice? then last.count else 0
  }

  predicate Increasing(s: seq<nat>) {
    forall i, j :: 0 <= i < j < |s| ==> s[i] < s[j]
  }

  /** What holds in every reachable state: nothing is torn or reordered between the lines and the filled buffers,
      buffers reach the file in the order in which they were filled, each at most once, and the notices account for
      exactly the buffers that are missing. */
  predicate Sound(l: Log) {
    && Flat(l.filled) + l.current == l.lines
    && l.queued <= |l.filled|
    && (var taken, order := |l.filled| - l.queued, Written(l.chunks) + l.pending;
        && Increasing(order)
        && (forall i :: 0 <= i < |order| ==> order[i] < taken)
        && |order| + Lost(l.chunks) == taken)
  }

  lemma KeptIsSound(l: Log, line: string)
    requires Sound(l)
    ensures Sound(Kept(l, line))
  {
    hide Increasing, Written, Lost, Flat;
    assert Flat(l.filled) + (l.current + [line]) == Flat(l.filled) + l.current + [line];
  }

  lemma RotatedIsSound(l: Log)
    requires Sound(l)
    ensures Sound(Rotated(l))
  {
    hide Increasing, Written, Lost, Flat;
    FlatNext(l.filled, l.current);
    assert Flat(l.filled) + l.current + [] == Flat(l.filled) + l.current;
  }

  lemma {:induction false} SwappedIsSound(l: Log)
    requires Sound(l) && l.pending == []
    ensures Sound(Swapped(l))
  {
    hide Lost, Written;
    FlatNext(l.filled, l.current);
    assert Written(l.chunks) + [] == Written(l.chunks);
  }

  lemma {:induction false} TrimmedIsSound(l: Log)
    requires Sound(l)
    ensures Sound(Trimmed(l))
  {
    hide Text, Flat;
    if |l.pending| > MAX_BUFFERS {
      var notice := Notice(|l.pending| - 2);
      assert (l.chunks + [notice])[..|l.chunks|] == l.chunks;
      var order, kept := Written(l.chunks) + l.pending, Written(l.chunks) + l.pending[..2];
      assert Written(l.chunks + [notice]) == Written(l.chunks) + [] == Written(l.chunks);
      assert kept == order[..|kept|];
    }
  }

  lemma WroteOneIsSound(l: Log)
    requires Sound(l) && l.pending != []
    ensures Sound(WroteOne(l))
  {
    var whole := Whole(l.pending[0]);
    assert (l.chunks + [whole])[..|l.chunks|] == l.chunks;
    assert Written(l.chunks) + [l.pending[0]] + l.pending[1..] == Written(l.chunks) + l.pending;
  }

  // What a sound state means for the file.

  function Pick<T>(parts: seq<T>, indices: seq<nat>): seq<T>
    requires forall i :: 0 <= i < |indices| ==> indices[i] < |parts|
  {
    seq(|indices|, i requires 0 <= i < |indices| => parts[indices[i]])
  }

  predicate NoNotices(chunks: seq<Chunk>) {
    forall i :: 0 <= i < |chunks| ==> chunks[i].Whole?
  }

  function WithoutNotices(chunks: seq<Chunk>): seq<Chunk> {
    if chunks == [] then []
    else
      var last := chunks[|chunks| - 1];
      WithoutNotices(chunks[..|chunks| - 1]) + if last.Whole? then [last] else []
  }

  lemma {:induction false} WrittenWithoutNotices(chunks: seq<Chunk>)
    ensures NoNotices(WithoutNotices(chunks)) && Written(WithoutNotices(chunks)) == Written(chunks)
  {
    if chunks != [] {
      var last, rest := chunks[|chunks| - 1], WithoutNotices(chunks[..|chunks| - 1]);
      WrittenWithoutNotices(chunks[..|chunks| - 1]);
      if last.Whole? {
        assert (rest + [last])[..|rest|] == rest;
      } else {
        assert rest + [] == rest;
        assert Written(chunks[..|chunks| - 1]) + [] == Written(chunks[..|chunks| - 1]);
      }
    }
  }

  lemma {:induction false} LostNothing(chunks: seq<Chunk>)
    requires NoNotices(chunks)
    ensures Lost(chunks) == 0
  {
    if chunks != [] {
      LostNothing(chunks[..|chunks| - 1]);
    }
  }

  /** A file without notices is the text of the lines of the buffers in it. */
  lemma {:induction false} WholeBuffers(chunks: seq<Chunk>, filled: seq<Lines>)
    requires NoNotices(chunks) && forall i :: 0 <= i < |Written(chunks)| ==> Written(chunks)[i] < |filled|
    ensures FileText(chunks, filled) == Text(Flat(Pick(filled, Written(chunks))))
  {
    if chunks != [] {
      var init, last := chunks[..|chunks| - 1], chunks[|chunks| - 1];
      assert Written(chunks) == Written(init) + [last.index];
      forall i | 0 <= i < |Written(init)| ensures Written(init)[i] < |filled| {
        assert Written(chunks)[i] == Written(init)[i];
      }
      assert Written(chunks)[|Written(init)|] == last.index;
      WholeBuffers(init, filled);
      assert Pick(filled, Written(chunks)) == Pick(filled, Written(init)) + [filled[last.index]];
      FlatNext(Pick(filled, Written(init)), filled[last.index]);
      FlatAppend(Flat(Pick(filled, Written(init))), filled[last.index]);
    }
  }

  /** An increasing sequence of n numbers below n leaves none out. */
  lemma {:induction false} IncreasingFull(s: seq<nat>, n: nat)
    requires Increasing(s) && |s| == n && forall i :: 0 <= i < n ==> s[i] < n
    ensures s == Range(0, n)
  {
    if n > 0 {
      var init := s[..n - 1];
      assert forall i :: 0 <= i < n - 1 ==> s[i] < s[n - 1];
      IncreasingBelow(s, n - 1);
      IncreasingFull(init, n - 1);
      assert s == init + [s[n - 1]];
      IncreasingAtLeast(s, n - 1);
    }
  }

  lemma {:induction false} IncreasingAtLeast(s: seq<nat>, i: nat)
    requires Increasing(s) && i < |s|
    ensures s[i] >= i
  {
    if i > 0 {
      IncreasingAtLeast(s, i - 1);
    }
  }

  lemma IncreasingBelow(s: seq<nat>, last: nat)
    requires Increasing(s) && |s| == last + 1 && s[last] <= last
    ensures forall i :: 0 <= i < last ==> s[i] < last
  {
  }

  /** As long as nothing was dropped, the file, the buffers still to be written, the waiting buffers and the current
      buffer together hold every appended line, in order. */
  lemma {:induction false} NothingLost(l: Log)
    requires Sound(l) && NoNotices(l.chunks)
    ensures var taken := |l.filled| - l.queued;
      && (forall i :: 0 <= i < |l.pending| ==> l.pending[i] < |l.filled|)
      && Text(l.lines) ==
         FileText(l.chunks, l.filled) + Text(Flat(Pick(l.filled, l.pending))) + Text(Flat(l.filled[taken..])) +
           Text(l.current)
  {
    hide Increasing, FileText;
    var taken, w, p := |l.filled| - l.queued, Written(l.chunks), l.pending;
    LostNothing(l.chunks);
    IncreasingFull(w + p, taken);
    Bounds(w, p, |l.filled|);
    WholeBuffers(l.chunks, l.filled);
    PickAll(l.filled, w, p, taken);
    var a, b, c := Flat(Pick(l.filled, w)), Flat(Pick(l.filled, p)), Flat(l.filled[taken..]);
    FlatAppend(Pick(l.filled, w), Pick(l.filled, p));
    FlatAppend(Pick(l.filled, w) + Pick(l.filled, p), l.filled[taken..]);
    FourTexts(a, b, c, l.current);
  }

  lemma Bounds(w: seq<nat>, p: seq<nat>, n: nat)
    requires forall i :: 0 <= i < |w + p| ==> (w + p)[i] < n
    ensures forall i :: 0 <= i < |w| ==> w[i] < n
    ensures forall i :: 0 <= i < |p| ==> p[i] < n
  {
    forall i | 0 <= i < |w| ensures w[i] < n {
      assert (w + p)[i] == w[i];
    }
    forall i | 0 <= i < |p| ensures p[i] < n {
      assert (w + p)[|w| + i] == p[i];
    }
  }

  lemma PickAll(filled: seq<Lines>, w: seq<nat>, p: seq<nat>, taken: nat)
    requires taken <= |filled| && w + p == Range(0, taken)
    requires forall i :: 0 <= i < |w| ==> w[i] < |filled|
    requires forall i :: 0 <= i < |p| ==> p[i] < |filled|
    ensures Pick(filled, w) + Pick(filled, p) + filled[taken..] == filled
  {
    var s := Pick(filled, w) + Pick(filled, p);
    assert |s| == |w + p| == taken;
    forall i | 0 <= i < taken ensures s[i] == filled[i] {
      assert (w + p)[i] == i;
    }
    assert s == filled[..taken];
  }

  lemma FourTexts(a: Lines, b: Lines, c: Lines, d: Lines)
    ensures Text(a + b + c + d) == Text(a) + Text(b) + Text(c) + Text(d)
  {
    FlatAppend(a, b);
    FlatAppend(a + b, c);
    FlatAppend(a + b + c, d);
  }

  /** With drops, the file apart from its notices is the text of whole buffers, each at most once, in the order in
      which they were filled; the notices count the missing ones. So no line is torn or reordered. */
  lemma {:induction false} FileIsInOrder(l: Log)
    requires Sound(l)
    ensures var order := Written(l.chunks);
      && Increasing(order)
      && (forall i :: 0 <= i < |order| ==> order[i] < |l.filled| - l.queued)
      && FileText(WithoutNotices(l.chunks), l.filled) == Text(Flat(Pick(l.filled, order)))
      && |order| + |l.pending| + l.queued + Lost(l.chunks) == |l.filled|
  {
    var w, p := Written(l.chunks), l.pending;
    Bounds(w, p, |l.filled| - l.queued);
    forall i, j | 0 <= i < j < |w| ensures w[i] < w[j] {
      assert (w + p)[i] == w[i] && (w + p)[j] == w[j];
    }
    WrittenWithoutNotices(l.chunks);
    WholeBuffers(WithoutNotices(l.chunks), l.filled);
  }

  // The texts that the buffers have to hold.

  /** The texts of the buffers that wait in `buffers_`. */
  function QueuedTexts(l: Log): (r: seq<string>)
    requires l.queued <= |l.filled|
    ensures |r| == l.queued
  {
    seq(l.queued, i requires 0 <= i < l.queued => Text(l.filled[|l.filled| - l.queued + i]))
  }

  /** The texts of the buffers that are still to be written. */
  function PendingTexts(l: Log): (r: seq<string>)
    requires forall i :: 0 <= i < |l.pending| ==> l.pending[i] < |l.filled|
    ensures |r| == |l.pending|
  {
    seq(|l.pending|, i requires 0 <= i < |l.pending| => Text(l.filled[l.pending[i]]))
  }

  lemma PendingInRange(l: Log)
    requires Sound(l)
    ensures forall i :: 0 <= i < |l.pending| ==> l.pending[i] < |l.filled|
  {
    Bounds(Written(l.chunks), l.pending, |l.filled|);
  }

  /** Keeping a line changes only the text of the current buffer. */
  lemma KeptTexts(l: Log, line: string)
    requires Sound(l)
    ensures Sound(Kept(l, line)) && (forall i :: 0 <= i < |l.pending| ==> l.pending[i] < |l.filled|)
    ensures PendingTexts(Kept(l, line)) == PendingTexts(l) && QueuedTexts(Kept(l, line)) == QueuedTexts(l)
    ensures Text(Kept(l, line).current) == Text(l.current) + line
  {
    hide Sound, Flat;
    PendingInRange(l);
    KeptIsSound(l, line);
    FlatNext(l.current, line);
  }

  /** Putting the current buffer aside adds its text to the waiting ones. */
  lemma RotatedTexts(l: Log)
    requires Sound(l)
    ensures Sound(Rotated(l)) && (forall i :: 0 <= i < |l.pending| ==> l.pending[i] < |l.filled|)
    ensures PendingTexts(Rotated(l)) == PendingTexts(l)
    ensures QueuedTexts(Rotated(l)) == QueuedTexts(l) + [Text(l.current)] && Text(Rotated(l).current) == ""
    ensures FileText(Rotated(l).chunks, Rotated(l).filled) == FileText(l.chunks, l.filled)
  {
    hide Sound, Flat, FileText;
    PendingInRange(l);
    RotatedIsSound(l);
    FlatNothing();
    WrittenInRange(l);
    FileTextGrows(l.chunks, l.filled, Rotated(l).filled);
  }

  lemma FlatNothing()
    ensures Flat<char>([]) == []
  {
  }

  lemma WrittenInRange(l: Log)
    requires Sound(l)
    ensures forall i :: 0 <= i < |Written(l.chunks)| ==> Written(l.chunks)[i] < |l.filled|
  {
    Bounds(Written(l.chunks), l.pending, |l.filled|);
  }

  /** Putting more buffers aside does not change what is in the file. */
  lemma {:induction false} FileTextGrows(chunks: seq<Chunk>, filled: seq<Lines>, more: seq<Lines>)
    requires filled <= more && forall i :: 0 <= i < |Written(chunks)| ==> Written(chunks)[i] < |filled|
    ensures FileText(chunks, more) == FileText(chunks, filled)
  {
    if chunks != [] {
      var init, last := chunks[..|chunks| - 1], chunks[|chunks| - 1];
      forall i | 0 <= i < |Written(init)| ensures Written(init)[i] < |filled| {
        assert Written(chunks)[i] == Written(init)[i];
      }
      FileTextGrows(init, filled, more);
      if last.Whole? {
        assert Written(chunks)[|Written(init)|] == last.index;
        assert more[last.index] == filled[last.index];
      }
    }
  }

  /** What the swap does to the texts. */
  lemma SwappedTexts(l: Log)
    requires Sound(l) && l.pending == []
    ensures var m := Swapped(l); Sound(m) && (forall i :: 0 <= i < |m.pending| ==> m.pending[i] < |m.filled|)
    ensures var m := Swapped(l);
      && PendingTexts(m) == QueuedTexts(l) + [Text(l.current)]
      && QueuedTexts(m) == [] && Text(m.current) == "" && m.chunks == l.chunks
      && FileText(m.chunks, m.filled) == FileText(l.chunks, l.filled)
  {
    hide Flat, FileText, Increasing, Written, Lost;
    SwappedIsSound(l);
    FlatNothing();
    PendingInRange(Swapped(l));
    WrittenInRange(l);
    FileTextGrows(l.chunks, l.filled, Swapped(l).filled);
  }

  lemma FileTextNext(chunks: seq<Chunk>, chunk: Chunk, filled: seq<Lines>)
    ensures FileText(chunks + [chunk], filled) == FileText(chunks, filled) + ChunkText(chunk, filled)
  {
    assert (chunks + [chunk])[..|chunks|] == chunks;
  }

  /** What dropping does to the texts. */
  lemma TrimmedTexts(l: Log)
    requires Sound(l)
    ensures forall i :: 0 <= i < |l.pending| ==> l.pending[i] < |l.filled|
    ensures var m := Trimmed(l); Sound(m) && (forall i :: 0 <= i < |m.pending| ==> m.pending[i] < |m.filled|)
    ensures var m := Trimmed(l);
      && m.filled == l.filled && m.queued == l.queued && m.current == l.current
      && l.queued <= |l.filled| && QueuedTexts(m) == QueuedTexts(l)
      && PendingTexts(m) == (if |l.pending| > MAX_BUFFERS then PendingTexts(l)[..2] else PendingTexts(l))
      && FileText(m.chunks, m.filled) ==
         FileText(l.chunks, l.filled) + (if |l.pending| > MAX_BUFFERS then NoticeText(|l.pending| - 2) else "")
  {
    hide Flat, FileText, NoticeText, Written, Lost, Increasing;
    PendingInRange(l);
    TrimmedIsSound(l);
    PendingInRange(Trimmed(l));
    if |l.pending| > MAX_BUFFERS {
      FileTextNext(l.chunks, Notice(|l.pending| - 2), l.filled);
    } else {
      assert FileText(l.chunks, l.filled) + "" == FileText(l.chunks, l.filled);
    }
  }

  /** What writing one buffer does to the texts. */
  lemma WroteOneTexts(l: Log)
    requires Sound(l) && l.pending != []
    ensures forall i :: 0 <= i < |l.pending| ==> l.pending[i] < |l.filled|
    ensures var m := WroteOne(l); Sound(m) && (forall i :: 0 <= i < |m.pending| ==> m.pending[i] < |m.filled|)
    ensures var m := WroteOne(l);
      && m.filled == l.filled && m.queued == l.queued && m.current == l.current
      && l.queued <= |l.filled| && QueuedTexts(m) == QueuedTexts(l)
      && PendingTexts(m) == PendingTexts(l)[1..]
      && FileText(m.chunks, m.filled) == FileText(l.chunks, l.filled) + PendingTexts(l)[0]
  {
    hide Flat, FileText, Written, Lost, Increasing;
    PendingInRange(l);
    WroteOneIsSound(l);
    PendingInRange(WroteOne(l));
    FileTextNext(l.chunks, Whole(l.pending[0]), l.filled);
  }

  /** Every line that is shorter than a buffer is accepted, and only those. */
  lemma {:induction false} AppendedLines(l: Log, line: string, size: nat)
    ensures Appended(l, line, size).lines == if |line| < size then l.lines + [line] else l.lines
  {
    FlatNothing();
  }

  /** The text of all lines is the text of the parts, one after the other. */
  lemma {:induction false} TextOfFlat(parts: seq<Lines>, texts: seq<string>)
    requires |texts| == |parts| && forall i :: 0 <= i < |parts| ==> texts[i] == Text(parts[i])
    ensures Text(Flat(parts)) == Flat(texts)
  {
    if parts != [] {
      var n := |parts| - 1;
      TextOfFlat(parts[..n], texts[..n]);
      FlatAppend(Flat(parts[..n]), parts[n]);
    }
  }

  /** As long as nothing was dropped, the file and the texts that the buffers hold make up every accepted line. */
  lemma NoTextLost(l: Log)
    requires Sound(l) && NoNotices(l.chunks)
    ensures forall i :: 0 <= i < |l.pending| ==> l.pending[i] < |l.filled|
    ensures Text(l.lines) ==
      FileText(l.chunks, l.filled) + Flat(PendingTexts(l)) + Flat(QueuedTexts(l)) + Text(l.current)
  {
    hide Flat, Text, FileText, Increasing, Written, Lost;
    NothingLost(l);
    TextOfFlat(Pick(l.filled, l.pending), PendingTexts(l));
    TextOfFlat(l.filled[|l.filled| - l.queued..], QueuedTexts(l));
  }

  // A whole round of the thread.

  /** All buffers still to be written are written. */
  function Drained(l: Log): Log
    decreases |l.pending|
  {
    if l.pending == [] then l else Drained(WroteOne(l))
  }

  lemma DrainedNext(l: Log)
    requires l.pending != []
    ensures Drained(l) == Drained(WroteOne(l))
  {
  }

  lemma DrainedNothing(l: Log)
    requires l.pending == []
    ensures Drained(l) == l
  {
  }

  lemma FlatFirst<T>(parts: seq<seq<T>>)
    requires parts != []
    ensures Flat(parts) == parts[0] + Flat(parts[1..])
  {
    hide Flat;
    FlatAppend([parts[0]], parts[1..]);
    FlatOne(parts[0]);
    assert [parts[0]] + parts[1..] == parts;
  }

  lemma FlatOne<T>(part: seq<T>)
    ensures Flat([part]) == part
  {
    assert [part][..0] == [];
    assert [] + part == part;
  }

  lemma {:induction false} DrainedTexts(l: Log)
    requires Sound(l)
    ensures forall i :: 0 <= i < |l.pending| ==> l.pending[i] < |l.filled|
    ensures var m := Drained(l);
      && Sound(m) && m.pending == [] && m.queued == l.queued && m.current == l.current && m.lines == l.lines
      && FileText(m.chunks, m.filled) == FileText(l.chunks, l.filled) + Flat(PendingTexts(l))
    decreases |l.pending|
  {
    hide Sound, Text, FileText, Flat;
    PendingInRange(l);
    if l.pending == [] {
      FlatNothing();
      assert PendingTexts(l) == [];
      assert FileText(l.chunks, l.filled) + [] == FileText(l.chunks, l.filled);
    } else {
      WroteOneTexts(l);
      DrainedTexts(WroteOne(l));
      FlatFirst(PendingTexts(l));
      assert FileText(l.chunks, l.filled) + PendingTexts(l)[0] + Flat(PendingTexts(l)[1..]) ==
        FileText(l.chunks, l.filled) + (PendingTexts(l)[0] + Flat(PendingTexts(l)[1..]));
    }
  }

  /** Writing what was taken over, after too many buffers were dropped. */
  lemma TakenTexts(l: Log, texts: seq<string>)
    requires Sound(l) && forall i :: 0 <= i < |l.pending| ==> l.pending[i] < |l.filled|
    requires texts == PendingTexts(l)
    ensures var m := Drained(Trimmed(l));
      && m.pending == [] && m.queued == l.queued && m.current == l.current && m.lines == l.lines
      && FileText(m.chunks, m.filled) == FileText(l.chunks, l.filled) +
           if |texts| > 25 then NoticeText(|texts| - 2) + (texts[0] + texts[1]) else Flat(texts)
  {
    hide Sound, Text, FileText, Flat, NoticeText, Trimmed, Drained, QueuedTexts, PendingTexts;
    TrimmedTexts(l);
    TrimmedLines(l);
    DrainedTexts(Trimmed(l));
    if |texts| > 25 {
      FirstTwo(texts);
      Joined(FileText(l.chunks, l.filled), NoticeText(|texts| - 2), texts[0] + texts[1]);
    } else {
      Joined(FileText(l.chunks, l.filled), "", Flat(texts));
    }
  }

  lemma Joined(a: string, b: string, c: string)
    ensures a + b + c == a + (b + c) && "" + c == c
  {
  }

  lemma FirstTwo(texts: seq<string>)
    requires |texts| >= 2
    ensures Flat(texts[..2]) == texts[0] + texts[1]
  {
    hide Flat;
    FlatTwo(texts[0], texts[1]);
    assert texts[..2] == [texts[0], texts[1]];
  }

  /** A round of the thread writes everything that was put aside and the current buffer, in order, as long as that
      makes at most 25 buffers; otherwise a notice and the first two. */
  lemma {:induction false} RoundTexts(l: Log)
    requires Sound(l) && l.pending == []
    ensures var m := Drained(Trimmed(Swapped(l)));
      && m.pending == [] && m.queued == 0 && Text(m.current) == "" && m.lines == l.lines
      && FileText(m.chunks, m.filled) == FileText(l.chunks, l.filled) +
           if l.queued < 25 then Flat(QueuedTexts(l)) + Text(l.current)
           else "Dropped log messages, " + Decimal.Digits(l.queued - 1) + " larger buffers\n" +
                (QueuedTexts(l)[0] + QueuedTexts(l)[1])
  {
    hide Sound, Text, FileText, Flat, Trimmed, Drained, QueuedTexts, PendingTexts, Decimal.Digits;
    QueueInRange(l);
    SwappedTexts(l);
    var texts := QueuedTexts(l) + [Text(l.current)];
    TakenTexts(Swapped(l), texts);
    FlatNext(QueuedTexts(l), Text(l.current));
    SwappedLines(l);
  }

  lemma SwappedLines(l: Log)
    requires l.queued <= |l.filled|
    ensures Swapped(l).queued == 0 && Swapped(l).lines == l.lines
  {
  }

  lemma QueueInRange(l: Log)
    requires Sound(l)
    ensures l.queued <= |l.filled|
  {
  }

  lemma TrimmedLines(l: Log)
    ensures Trimmed(l).lines == l.lines && |Trimmed(l).pending| == if |l.pending| > 25 then 2 else |l.pending|
  {
  }

  lemma FlatTwo<T>(a: seq<T>, b: seq<T>)
    ensures Flat([a, b]) == a + b
  {
    hide Flat;
    FlatOne(a);
    FlatNext([a], b);
    assert [a] + [b] == [a, b];
  }
}
