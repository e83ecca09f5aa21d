/**
  A scan session (`Scanner` in src/core/scanner.rs): a background walk of
  one volume whose messages travel over an unbounded FIFO channel to the
  user interface, which polls it with `try_recv`.

  The thread and `catch_unwind` are modelled by a `WalkOutcome`: the walk
  either returns its root, or panics after having sent some of its
  progress snapshots. Either way the thread then sends exactly one
  terminal message. The interleaving of sender and receiver is modelled by
  `SendMore`, which lets the sender put its next messages on the channel.
*/
module ScanSession {
  import opened Wrappers
  import opened FileNodes
  import opened ScanWalk

  /** How the walk on the scanning thread ends. */
  datatype WalkOutcome = Returns | PanicsAfter(sent: nat)

  /** The reason sent when the walk panics. */
  const PanicMessage := "Scan panicked"

  predicate IsTerminal(m: ScanMessage)
  {
    m.Completed? || m.Error?
  }

  /** Zero or more progress snapshots followed by exactly one terminal message. */
  predicate IsSessionStream(ms: seq<ScanMessage>)
  {
    && |ms| > 0
    && IsTerminal(ms[|ms| - 1])
    && forall k :: 0 <= k < |ms| - 1 ==> ms[k].Progress?
  }

  /** Everything the scanning thread of a session on `volume` sends: the
      walk's snapshots, then `Completed` with its root; or, when the walk
      panics after `k` snapshots, those snapshots and then the panic error. */
  function SessionStream(volume: Entry, outcome: WalkOutcome): seq<ScanMessage>
  {
    var snaps := Snapshots(Visited(volume), InitialProgress);
    match outcome
    case Returns => snaps + [Completed(Scan(volume))]
    case PanicsAfter(k) => snaps[..Min(k, |snaps|)] + [Error(PanicMessage)]
  }

  /** Every message a walk sends is a progress snapshot. */
  lemma SnapshotsAreProgress(vs: seq<Entry>, p: ScanProgress)
    ensures forall k :: 0 <= k < |Snapshots(vs, p)| ==> Snapshots(vs, p)[k].Progress?
  {
    SnapshotsAt(vs, p);
  }

  /** A session sends progress snapshots and then exactly one terminal
      message: `Completed` with the walk's tree when the walk returns, the
      panic error otherwise. The snapshots are those of the walk, all of
      them when it returns, the first `k` (or all, if fewer) when it
      panics after `k`. */
  lemma SessionStreamShape(volume: Entry, outcome: WalkOutcome)
    ensures var ms, snaps := SessionStream(volume, outcome), Snapshots(Visited(volume), InitialProgress);
      && IsSessionStream(ms)
      && ms[..|ms| - 1] == (if outcome.Returns? then snaps else snaps[..Min(outcome.sent, |snaps|)])
      && ms[|ms| - 1] == (if outcome.Returns? then Completed(Scan(volume)) else Error(PanicMessage))
  {
    var ms, snaps := SessionStream(volume, outcome), Snapshots(Visited(volume), InitialProgress);
    SnapshotsAreProgress(Visited(volume), InitialProgress);
    var body := if outcome.Returns? then snaps else snaps[..Min(outcome.sent, |snaps|)];
    assert ms == body + [ms[|ms| - 1]];
    assert ms[..|ms| - 1] == body;
    forall k | 0 <= k < |ms| - 1
      ensures ms[k].Progress?
    {
      assert ms[k] == body[k] == snaps[k];
    }
  }

  /** The session stream is the walk's snapshots, cut short on a panic,
      followed by the terminal message. */
  lemma StreamParts(volume: Entry, outcome: WalkOutcome, snapshots: seq<ScanMessage>, terminal: ScanMessage)
    requires var snaps := Snapshots(Visited(volume), InitialProgress);
      && snapshots == (if outcome.Returns? then snaps else snaps[..Min(outcome.sent, |snaps|)])
      && terminal == (if outcome.Returns? then Completed(Scan(volume)) else Error(PanicMessage))
    ensures snapshots + [terminal] == SessionStream(volume, outcome)
  {
  }

  /** Nothing follows the terminal message of a session. */
  lemma TerminalIsLast(ms: seq<ScanMessage>, k: nat)
    requires IsSessionStream(ms) && k < |ms| && IsTerminal(ms[k])
    ensures k == |ms| - 1
  {
  }

  /** The receiving end of the channel of one session. */
  class Scanner {
    /** Everything the scanning thread sends, in sending order. */
    const produced: seq<ScanMessage>
    /** How many of those messages are on the channel so far. */
    var sent: nat
    /** How many of them `TryRecv` has taken off. */
    var received: nat

    ghost predicate Valid()
      reads this
    {
      received <= sent <= |produced| && IsSessionStream(produced)
    }

    /** The messages sent but not yet received, oldest first. */
    function Pending(): seq<ScanMessage>
      reads this
      requires Valid()
    {
      produced[received..sent]
    }

    /** `Scanner::new`: starts the walk of `volume` with fresh counters. */
    constructor (volume: Entry, outcome: WalkOutcome)
      ensures Valid()
      ensures produced == SessionStream(volume, outcome)
      ensures sent == 0 && received == 0
    {
      var reporter := new Reporter();
      var root := reporter.ScanRecursive(volume);
      var snapshots, terminal := reporter.outbox, Completed(root);
      if outcome.PanicsAfter? {
        snapshots, terminal := snapshots[..Min(outcome.sent, |snapshots|)], Error(PanicMessage);
      }
      SessionStreamShape(volume, outcome);
      StreamParts(volume, outcome, snapshots, terminal);
      produced := snapshots + [terminal];
      sent, received := 0, 0;
    }

    /** The scanning thread runs on until it has put up to `n` more
        messages on the channel. */
    method SendMore(n: nat)
      requires Valid()
      modifies this
      ensures Valid()
      ensures sent == Min(|produced|, old(sent) + n) && received == old(received)
      ensures Pending() == old(Pending()) + produced[old(sent)..sent]
    {
      sent := Min(|produced|, sent + n);
      assert produced[old(received)..sent] == produced[old(received)..old(sent)] + produced[old(sent)..sent];
    }

    /** `try_recv`: the oldest message on the channel, or `None` when the
        channel is empty. A terminal message is only ever received once
        everything the thread sends has been received. */
    method TryRecv() returns (m: Option<ScanMessage>)
      requires Valid()
      modifies this
      ensures Valid() && sent == old(sent)
      ensures old(Pending()) == [] ==> m == None && received == old(received)
      ensures old(Pending()) != [] ==> m == Some(old(Pending())[0]) && received == old(received) + 1
      ensures Pending() == if old(Pending()) == [] then [] else old(Pending())[1..]
      ensures m.Some? && IsTerminal(m.value) ==> received == sent == |produced|
    {
      if received == sent {
        return None;
      }
      m := Some(produced[received]);
      received := received + 1;
      if IsTerminal(m.value) {
        TerminalIsLast(produced, received - 1);
      }
    }
  }
}
