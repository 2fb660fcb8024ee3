/** Runs of the buffered writer, on values: what the file holds, what is still in the buffer, and
    the accepted bytes. */
module WriterRuns {
  import opened Runs

  const SD_FAT32_BUFFER_SIZE: nat := 2560

  datatype Writer = Writer(file: seq<bv8>, pending: seq<bv8>) {
    ghost function Content(): seq<bv8> { file + pending }
  }

  datatype WriterEvent =
    | Wrote(data: seq<bv8>, accepted: nat, ok: bool)   // sd_fat32_write took the first `accepted` bytes
    | Flushed(ok: bool)                                // sd_fat32_flush

  function AcceptedOf(e: WriterEvent): seq<bv8> {
    match e
    case Wrote(data, accepted, _) => if accepted <= |data| then data[..accepted] else data
    case Flushed(_) => []
  }

  /** One call.  Write moves the buffer to the file only when it is full; a failed write leaves the
      buffer full; a failed flush changes nothing. */
  ghost predicate Happens(s: Writer, e: WriterEvent, t: Writer) {
    match e
    case Wrote(data, accepted, ok) =>
      && accepted <= |data| && (ok ==> accepted == |data|)
      && t.Content() == s.Content() + data[..accepted]
      && s.file <= t.file
      && (|t.file| - |s.file|) % SD_FAT32_BUFFER_SIZE == 0
      && |t.pending| <= SD_FAT32_BUFFER_SIZE
      && (!ok ==> |t.pending| == SD_FAT32_BUFFER_SIZE)
    case Flushed(ok) =>
      if ok then t.file == s.Content() && t.pending == [] else t == s
  }

  /** All accepted bytes, in order. */
  function Accepted(log: seq<WriterEvent>): seq<bv8> {
    if log == [] then [] else Accepted(log[..|log| - 1]) + AcceptedOf(log[|log| - 1])
  }

  /** Each call appends exactly what it accepts. */
  lemma StepAppends(s: Writer, e: WriterEvent, t: Writer)
    requires Happens(s, e, t)
    ensures t.Content() == s.Content() + AcceptedOf(e)
  {
    assert s.Content() + [] == s.Content();
    if e.Flushed? && e.ok {
      assert t.Content() == t.file;
    }
  }

  lemma Regroup(a: seq<bv8>, b: seq<bv8>, c: seq<bv8>)
    ensures a + b + c == a + (b + c)
  {
  }

  /** Over any run, file contents followed by the buffer are the plain appends of the accepted bytes. */
  lemma {:induction false} ContentIsAccepted(states: seq<Writer>, log: seq<WriterEvent>)
    requires History(Happens, states, log)
    ensures states[|log|].Content() == states[0].Content() + Accepted(log)
    decreases |log|
  {
    if log == [] {
      assert states[0].Content() + [] == states[0].Content();
    } else {
      var n := |log| - 1;
      HistoryFront(Happens, states, log, n);
      ContentIsAccepted(states[..n + 1], log[..n]);
      StepAppends(states[n], log[n], states[n + 1]);
      Regroup(states[0].Content(), Accepted(log[..n]), AcceptedOf(log[n]));
    }
  }

  /** After a successful flush the file is the accepted bytes, however they were split into calls and
      whatever failed and was retried on the way. */
  lemma FlushedFileDependsOnBytesOnly(s1: seq<Writer>, l1: seq<WriterEvent>, s2: seq<Writer>, l2: seq<WriterEvent>)
    requires History(Happens, s1, l1) && History(Happens, s2, l2)
    requires l1 != [] && l1[|l1| - 1] == Flushed(true)
    requires l2 != [] && l2[|l2| - 1] == Flushed(true)
    requires s1[0].Content() == s2[0].Content() && Accepted(l1) == Accepted(l2)
    ensures s1[|l1|].file == s2[|l2|].file == s1[0].Content() + Accepted(l1)
    ensures s1[|l1|].pending == [] == s2[|l2|].pending
  {
    ContentIsAccepted(s1, l1);
    ContentIsAccepted(s2, l2);
    assert Happens(s1[|l1| - 1], l1[|l1| - 1], s1[|l1|]);
    assert Happens(s2[|l2| - 1], l2[|l2| - 1], s2[|l2|]);
    assert s1[|l1|].Content() == s1[|l1|].file && s2[|l2|].Content() == s2[|l2|].file;
  }

  lemma PrefixTransitive(a: seq<bv8>, b: seq<bv8>, c: seq<bv8>)
    requires a <= b <= c
    ensures a <= c
  {
  }

  /** Nothing written to the file is ever taken back. */
  lemma {:induction false} FileOnlyGrows(states: seq<Writer>, log: seq<WriterEvent>, i: nat)
    requires History(Happens, states, log) && i <= |log|
    ensures states[i].file <= states[|log|].file
    decreases |log| - i
  {
    if i < |log| {
      assert Happens(states[i], log[i], states[i + 1]);
      FileOnlyGrows(states, log, i + 1);
      PrefixTransitive(states[i].file, states[i + 1].file, states[|log|].file);
    }
  }

  /** sd_fat32_close flushes and drops the status.  It is certain to save every byte iff the buffer is
      empty when it is called: with bytes in the buffer the flush may fail, and then they are lost. */
  lemma CloseIsSafeWhen(s: Writer)
    ensures (forall ok: bool, t: Writer :: Happens(s, Flushed(ok), t) ==> t.file == s.Content()) <==> s.pending == []
  {
    if s.pending != [] {
      assert Happens(s, Flushed(false), s) && |s.file| < |s.Content()|;
    } else {
      assert s.Content() == s.file;
    }
  }
}
