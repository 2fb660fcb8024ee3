/** Runs of block-device requests, seen as a flat array of bytes. */
module FlatStore {
  import opened ByteStore
  import opened Common
  import opened Runs

  datatype IoEvent =
    | Put(off: nat, bytes: seq<bv8>)                  // a write that reported success and stored its bytes
    | Smear(lo: nat, hi: nat, reported: bool)         // any other: anything may be in [lo, hi)
    | Get(off: nat, bytes: seq<bv8>, sound: bool)     // a read that reported success, and what it delivered

  ghost predicate Happens(s: seq<bv8>, e: IoEvent, t: seq<bv8>) {
    match e
    case Put(off, bytes) => Written(s, t, off, bytes)
    case Smear(lo, hi, _) => SameOutside(s, t, lo, hi)
    case Get(off, bytes, sound) => t == s && (sound && bytes != [] ==> Delivered(s, off, bytes))
  }

  /** The bytes are the card's bytes from `off` on. */
  ghost predicate Delivered(s: seq<bv8>, off: nat, bytes: seq<bv8>) {
    off + |bytes| <= |s| && s[off..off + |bytes|] == bytes
  }

  /** Whoever reported success was right. */
  predicate Honest(e: IoEvent) {
    match e
    case Put(_, _) => true
    case Smear(lo, hi, reported) => reported ==> hi <= lo
    case Get(_, _, sound) => sound
  }

  /** And no write failed. */
  predicate Clean(e: IoEvent) { Honest(e) && !e.Smear? }

  ghost predicate AllHonest(log: seq<IoEvent>) { forall i :: 0 <= i < |log| ==> Honest(log[i]) }

  ghost predicate AllClean(log: seq<IoEvent>) { forall i :: 0 <= i < |log| ==> Clean(log[i]) }

  /** What is known of byte x after one more event. */
  function Known(before: Option<bv8>, e: IoEvent, x: nat): Option<bv8> {
    match e
    case Put(off, bytes) => if off <= x < off + |bytes| then Some(bytes[x - off]) else before
    case Smear(lo, hi, _) => if lo <= x < hi then None else before
    case Get(_, _, _) => before
  }

  /** What byte x must hold after the events: the last successful write of it, or the initial value;
      nothing is known after a failed write reached it. */
  function LastWritten(initial: seq<bv8>, log: seq<IoEvent>, x: nat): Option<bv8>
    requires x < |initial|
  {
    if log == [] then Some(initial[x])
    else Known(LastWritten(initial, log[..|log| - 1], x), log[|log| - 1], x)
  }

  lemma KnownHolds(s: seq<bv8>, e: IoEvent, t: seq<bv8>, x: nat, before: Option<bv8>)
    requires Happens(s, e, t) && x < |s|
    requires before.Some? ==> s[x] == before.value
    ensures |t| == |s|
    ensures Known(before, e, x).Some? ==> t[x] == Known(before, e, x).value
  {
  }

  /** The card refines the flat array: after any run every byte that is known holds its last written value. */
  lemma {:induction false} StoreIsLastWritten(states: seq<seq<bv8>>, log: seq<IoEvent>, x: nat)
    requires History(Happens, states, log) && x < |states[0]|
    ensures |states[|log|]| == |states[0]|
    ensures LastWritten(states[0], log, x).Some? ==> states[|log|][x] == LastWritten(states[0], log, x).value
    decreases |log|
  {
    if log != [] {
      var n := |log| - 1;
      HistoryFront(Happens, states, log, n);
      StoreIsLastWritten(states[..n + 1], log[..n], x);
      KnownHolds(states[n], log[n], states[n + 1], x, LastWritten(states[0], log[..n], x));
    }
  }

  /** Every byte a sound read delivers is the last one successfully written there, in every run, whatever
      the failed requests in between left elsewhere. */
  lemma ReadsReturnLastWritten(states: seq<seq<bv8>>, log: seq<IoEvent>, i: nat, x: nat)
    requires History(Happens, states, log) && i < |log| && log[i].Get? && log[i].sound
    requires log[i].off <= x < log[i].off + |log[i].bytes| && x < |states[0]|
    requires LastWritten(states[0], log[..i], x).Some?
    ensures log[i].bytes[x - log[i].off] == LastWritten(states[0], log[..i], x).value
  {
    HistoryFront(Happens, states, log, i);
    StoreIsLastWritten(states[..i + 1], log[..i], x);
    assert Happens(states[i], log[i], states[i + 1]);
    assert states[i][log[i].off..log[i].off + |log[i].bytes|][x - log[i].off] == states[i][x];
  }

  /** Where every report is honest, every read that reported success delivers the last bytes successfully
      written, wherever no write has reported failure since. */
  lemma HonestReadsReturnLastWritten(states: seq<seq<bv8>>, log: seq<IoEvent>, i: nat, x: nat)
    requires History(Happens, states, log) && i < |log| && log[i].Get?
    requires AllHonest(log)
    requires log[i].off <= x < log[i].off + |log[i].bytes| && x < |states[0]|
    requires LastWritten(states[0], log[..i], x).Some?
    ensures log[i].bytes[x - log[i].off] == LastWritten(states[0], log[..i], x).value
  {
    assert Honest(log[i]);
    ReadsReturnLastWritten(states, log, i, x);
  }

  /** A run that leaves no bytes undefined leaves nothing unknown. */
  lemma {:induction false} NothingUnknown(initial: seq<bv8>, log: seq<IoEvent>, x: nat)
    requires x < |initial| && forall i :: 0 <= i < |log| ==> (log[i].Smear? ==> log[i].hi <= log[i].lo)
    ensures LastWritten(initial, log, x).Some?
    decreases |log|
  {
    if log != [] {
      assert log[|log| - 1].Smear? ==> log[|log| - 1].hi <= log[|log| - 1].lo;
      NothingUnknown(initial, log[..|log| - 1], x);
    }
  }

  /** In a clean run every read delivers the last bytes written, and they are known. */
  lemma CleanRunsReadBack(states: seq<seq<bv8>>, log: seq<IoEvent>, i: nat, x: nat)
    requires History(Happens, states, log) && i < |log| && log[i].Get?
    requires AllClean(log)
    requires log[i].off <= x < log[i].off + |log[i].bytes| && x < |states[0]|
    ensures LastWritten(states[0], log[..i], x) == Some(log[i].bytes[x - log[i].off])
  {
    forall k | 0 <= k < |log[..i]|
      ensures !log[..i][k].Smear?
    {
      assert Clean(log[k]);
    }
    NothingUnknown(states[0], log[..i], x);
    assert Clean(log[i]);
    ReadsReturnLastWritten(states, log, i, x);
  }
}
