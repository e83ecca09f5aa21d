/**
  The scan state of the application window (`GateApp` in src/app.rs): the
  selected volume, the running session, the last tree, the progress shown
  and the error shown, and the operations of the window that change them.

  `View` is the part of that state the messages of a session act on;
  `Absorb` says what one message does to it, and `AbsorbAll` what a batch
  of them does. `GateApp.DrainMessages` is the drain loop at the start of
  every frame, proved to act on the state as `AbsorbAll` says.
*/
module App {
  import opened Wrappers
  import opened FileNodes
  import opened ScanWalk
  import opened ScanSession

  /** The fields of the window that scan messages update. */
  datatype View = View(rootNode: Option<FileNode>, isScanning: bool, scanProgress: ScanProgress, errorMessage: Option<string>)

  /** The effect of one received message on the window. */
  function Absorb(v: View, m: ScanMessage): View
  {
    match m
    case Progress(p) => v.(scanProgress := p)
    case Completed(node) => v.(rootNode := Some(node), isScanning := false)
    case Error(e) => v.(errorMessage := Some(e), isScanning := false)
  }

  /** The effect of a batch of received messages, applied oldest first. */
  function AbsorbAll(v: View, ms: seq<ScanMessage>): View
  {
    if ms == [] then v else Absorb(AbsorbAll(v, ms[..|ms| - 1]), ms[|ms| - 1])
  }

  /** Whether a batch holds a terminal message. */
  predicate HasTerminal(ms: seq<ScanMessage>)
  {
    exists k :: 0 <= k < |ms| && IsTerminal(ms[k])
  }

  /** What `trash::delete` reports. */
  datatype TrashOutcome = Trashed | TrashFailed(reason: string)

  /** The prefix of the error shown when a deletion fails. */
  const DeleteFailedPrefix := "Failed to delete: "

  lemma {:induction false} AbsorbAllAppend(v: View, a: seq<ScanMessage>, b: seq<ScanMessage>)
    ensures AbsorbAll(v, a + b) == AbsorbAll(AbsorbAll(v, a), b)
    decreases |b|
  {
    if b == [] {
      assert a + b == a;
    } else {
      var c := a + b;
      assert c[..|c| - 1] == a + b[..|b| - 1];
      assert c[|c| - 1] == b[|b| - 1];
      AbsorbAllAppend(v, a, b[..|b| - 1]);
    }
  }

  /** Draining a session frame by frame leaves the window as draining
      everything at once would: the frames' batches can be split anywhere. */
  lemma DrainInFrames(v: View, a: seq<ScanMessage>, b: seq<ScanMessage>)
    ensures AbsorbAll(AbsorbAll(v, a), b) == AbsorbAll(v, a + b)
    ensures HasTerminal(a + b) <==> HasTerminal(a) || HasTerminal(b)
  {
    AbsorbAllAppend(v, a, b);
    if HasTerminal(a + b) {
      var k :| 0 <= k < |a + b| && IsTerminal((a + b)[k]);
      if k < |a| {
        assert IsTerminal(a[k]);
      } else {
        assert IsTerminal(b[k - |a|]);
      }
    }
    if HasTerminal(a) {
      var k :| 0 <= k < |a| && IsTerminal(a[k]);
      assert (a + b)[k] == a[k];
    }
    if HasTerminal(b) {
      var k :| 0 <= k < |b| && IsTerminal(b[k]);
      assert (a + b)[|a| + k] == b[k];
    }
  }

  /** After a batch the progress shown is that of the batch's last progress
      message, or what it was before when the batch has none. */
  lemma {:induction false} AbsorbAllProgress(v: View, ms: seq<ScanMessage>)
    ensures (forall k :: 0 <= k < |ms| ==> !ms[k].Progress?) ==> AbsorbAll(v, ms).scanProgress == v.scanProgress
    ensures forall j :: 0 <= j < |ms| && ms[j].Progress? && (forall k :: j < k < |ms| ==> !ms[k].Progress?) ==>
      AbsorbAll(v, ms).scanProgress == ms[j].progress
    decreases |ms|
  {
    if ms != [] {
      var front, last := ms[..|ms| - 1], ms[|ms| - 1];
      AbsorbAllProgress(v, front);
      forall j | 0 <= j < |ms| && ms[j].Progress? && (forall k :: j < k < |ms| ==> !ms[k].Progress?)
        ensures AbsorbAll(v, ms).scanProgress == ms[j].progress
      {
        if j < |ms| - 1 {
          assert front[j] == ms[j];
          assert forall k :: j < k < |front| ==> front[k] == ms[k];
        }
      }
    }
  }

  /** A batch without a terminal message changes only the progress shown. */
  lemma {:induction false} AbsorbProgressOnly(v: View, ms: seq<ScanMessage>)
    requires !HasTerminal(ms)
    ensures AbsorbAll(v, ms).rootNode == v.rootNode
    ensures AbsorbAll(v, ms).isScanning == v.isScanning
    ensures AbsorbAll(v, ms).errorMessage == v.errorMessage
    decreases |ms|
  {
    if ms != [] {
      var front := ms[..|ms| - 1];
      assert !IsTerminal(ms[|ms| - 1]);
      forall k | 0 <= k < |front|
        ensures !IsTerminal(front[k])
      {
        assert front[k] == ms[k];
      }
      AbsorbProgressOnly(v, front);
    }
  }

  /** A batch that ends in a terminal message stops the scan; `Completed`
      installs the tree, an error shows its reason. */
  lemma AbsorbTerminalLast(v: View, ms: seq<ScanMessage>)
    requires ms != [] && IsTerminal(ms[|ms| - 1])
    ensures !AbsorbAll(v, ms).isScanning
    ensures ms[|ms| - 1].Completed? ==> AbsorbAll(v, ms).rootNode == Some(ms[|ms| - 1].root)
    ensures ms[|ms| - 1].Error? ==> AbsorbAll(v, ms).errorMessage == Some(ms[|ms| - 1].reason)
  {
  }

  /** The window after a batch of progress snapshots closed by a terminal
      message: the scan has stopped, the terminal message's tree or reason
      is shown, and the progress shown is the batch's last snapshot. */
  lemma AbsorbClosedBatch(v: View, body: seq<ScanMessage>, t: ScanMessage)
    requires forall k :: 0 <= k < |body| ==> body[k].Progress?
    requires IsTerminal(t)
    ensures var w := AbsorbAll(v, body + [t]);
      && !w.isScanning
      && (t.Completed? ==> w.rootNode == Some(t.root) && w.errorMessage == v.errorMessage)
      && (t.Error? ==> w.rootNode == v.rootNode && w.errorMessage == Some(t.reason))
      && w.scanProgress == if body == [] then v.scanProgress else body[|body| - 1].progress
  {
    var ms := body + [t];
    assert ms[..|ms| - 1] == body && ms[|ms| - 1] == t;
    AbsorbAllProgress(v, body);
    AbsorbProgressOnly(v, body);
  }

  /** What a whole session does to the window once all of it has been
      drained, in one frame or in many. When the walk returns, the tree
      is installed and the last progress shown counts every node of it;
      when it panics after `k` snapshots, the panic error is shown and the
      progress shown counts the snapshots that made it out. */
  lemma SessionOutcome(v: View, volume: Entry, outcome: WalkOutcome)
    ensures var w := AbsorbAll(v, SessionStream(volume, outcome));
      && !w.isScanning
      && (outcome.Returns? ==>
            && w.rootNode == Some(Scan(volume)) && w.errorMessage == v.errorMessage
            && w.scanProgress.filesScanned == NodeCount(Scan(volume)))
      && (outcome.PanicsAfter? ==>
            && w.rootNode == v.rootNode && w.errorMessage == Some(PanicMessage)
            && var n := Min(outcome.sent, NodeCount(Scan(volume)));
               && (n == 0 ==> w.scanProgress == v.scanProgress)
               && (n > 0 ==> w.scanProgress.filesScanned == n))
  {
    var ms := SessionStream(volume, outcome);
    var snaps := Snapshots(Visited(volume), InitialProgress);
    SessionStreamShape(volume, outcome);
    WalkReport(volume);
    var body, t := ms[..|ms| - 1], ms[|ms| - 1];
    assert ms == body + [t];
    AbsorbClosedBatch(v, body, t);
    if body != [] {
      assert body[|body| - 1] == snaps[|body| - 1];
    }
  }

  /** The state of the window. */
  class GateApp {
    var selectedDiskMount: Option<string>
    var scanner: Scanner?
    var rootNode: Option<FileNode>
    var isScanning: bool
    var scanProgress: ScanProgress
    var errorMessage: Option<string>

    ghost predicate Valid()
      reads this, scanner
    {
      scanner != null ==> scanner.Valid()
    }

    function CurrentView(): View
      reads this
    {
      View(rootNode, isScanning, scanProgress, errorMessage)
    }

    /** `GateApp::new`: no volume selected, nothing scanned. */
    constructor ()
      ensures Valid()
      ensures selectedDiskMount == None && scanner == null && rootNode == None
      ensures !isScanning && scanProgress == InitialProgress && errorMessage == None
    {
      selectedDiskMount, scanner, rootNode := None, null, None;
      isScanning, scanProgress, errorMessage := false, InitialProgress, None;
    }

    /** `start_scan`: with a volume selected, forgets the last tree and
        error and starts a fresh session on that volume, whose filesystem
        is `volume`; with none selected, does nothing. */
    method StartScan(volume: Entry, outcome: WalkOutcome)
      modifies this
      ensures selectedDiskMount == old(selectedDiskMount)
      ensures old(selectedDiskMount).None? ==>
        && scanner == old(scanner) && rootNode == old(rootNode) && isScanning == old(isScanning)
        && scanProgress == old(scanProgress) && errorMessage == old(errorMessage)
      ensures old(selectedDiskMount).Some? ==>
        && isScanning && rootNode == None && errorMessage == None && scanProgress == InitialProgress
        && scanner != null && fresh(scanner) && scanner.Valid()
        && scanner.produced == SessionStream(volume, outcome) && scanner.sent == 0 && scanner.received == 0
      ensures old(Valid()) ==> Valid()
    {
      if selectedDiskMount.Some? {
        isScanning := true;
        rootNode := None;
        errorMessage := None;
        scanProgress := InitialProgress;
        scanner := new Scanner(volume, outcome);
      }
    }

    /** `delete_item`: when the item went to the trash, rescans as
        `start_scan` does; otherwise only shows why it could not. */
    method DeleteItem(trash: TrashOutcome, volume: Entry, outcome: WalkOutcome)
      modifies this
      ensures selectedDiskMount == old(selectedDiskMount)
      ensures trash.TrashFailed? ==>
        && errorMessage == Some(DeleteFailedPrefix + trash.reason)
        && scanner == old(scanner) && rootNode == old(rootNode) && isScanning == old(isScanning)
        && scanProgress == old(scanProgress)
      ensures trash.Trashed? && old(selectedDiskMount).None? ==>
        && scanner == old(scanner) && CurrentView() == old(CurrentView())
      ensures trash.Trashed? && old(selectedDiskMount).Some? ==>
        && isScanning && rootNode == None && errorMessage == None && scanProgress == InitialProgress
        && scanner != null && fresh(scanner) && scanner.Valid()
        && scanner.produced == SessionStream(volume, outcome) && scanner.sent == 0 && scanner.received == 0
      ensures old(Valid()) ==> Valid()
    {
      match trash {
        case Trashed =>
          StartScan(volume, outcome);
        case TrashFailed(reason) =>
          errorMessage := Some(DeleteFailedPrefix + reason);
      }
    }

    /** `go_home`: back to the volume list, dropping the session and the tree. */
    method GoHome()
      modifies this
      ensures selectedDiskMount == None && rootNode == None && !isScanning && scanner == null
      ensures scanProgress == old(scanProgress) && errorMessage == old(errorMessage)
      ensures Valid()
    {
      selectedDiskMount := None;
      rootNode := None;
      isScanning := false;
      scanner := null;
    }

    /** The error window: its Close button, when the window is shown and
        the button clicked, clears the error. */
    method CloseError(closeClicked: bool)
      modifies this
      ensures errorMessage == if old(errorMessage).Some? && closeClicked then None else old(errorMessage)
      ensures selectedDiskMount == old(selectedDiskMount) && scanner == old(scanner) && rootNode == old(rootNode)
      ensures isScanning == old(isScanning) && scanProgress == old(scanProgress)
    {
      var closeError := false;
      if errorMessage.Some? {
        if closeClicked {
          closeError := true;
        }
      }
      if closeError {
        errorMessage := None;
      }
    }

    /** One arm of the `match` in that loop: shows what the message
        carries and reports whether it ends the session. */
    method Show(m: ScanMessage) returns (terminal: bool)
      modifies this
      ensures CurrentView() == Absorb(old(CurrentView()), m) && terminal == IsTerminal(m)
      ensures selectedDiskMount == old(selectedDiskMount) && scanner == old(scanner)
    {
      terminal := false;
      match m {
        case Progress(p) =>
          scanProgress := p;
        case Completed(node) =>
          rootNode := Some(node);
          isScanning := false;
          terminal := true;
        case Error(e) =>
          errorMessage := Some(e);
          isScanning := false;
          terminal := true;
      }
    }

    /** The start of `update`: takes every message on the channel, applies
        each to the window, and drops the session once a terminal message
        has been taken. */
    method DrainMessages()
      requires Valid()
      modifies this, scanner
      ensures Valid() && selectedDiskMount == old(selectedDiskMount)
      ensures old(scanner) == null ==> scanner == null && CurrentView() == old(CurrentView())
      ensures old(scanner) != null ==>
        && CurrentView() == AbsorbAll(old(CurrentView()), old(scanner.Pending()))
        && old(scanner).received == old(scanner).sent == old(scanner.sent)
        && scanner == (if HasTerminal(old(scanner.Pending())) then null else old(scanner))
    {
      var scanFinished := false;
      if scanner != null {
        var s := scanner;
        ghost var r0, v0 := s.received, CurrentView();
        while true
          invariant s == scanner && s.Valid() && s.sent == old(s.sent)
          invariant r0 <= s.received <= s.sent
          invariant CurrentView() == AbsorbAll(v0, s.produced[r0..s.received])
          invariant scanFinished == HasTerminal(s.produced[r0..s.received])
          invariant selectedDiskMount == old(selectedDiskMount)
          decreases s.sent - s.received
        {
          ghost var taken := s.produced[r0..s.received];
          var msg := s.TryRecv();
          if msg.None? {
            break;
          }
          assert s.produced[r0..s.received] == taken + [msg.value];
          DrainInFrames(v0, taken, [msg.value]);
          var terminal := Show(msg.value);
          if terminal {
            scanFinished := true;
          }
        }
      }
      if scanFinished {
        scanner := null;
      }
    }
  }
}
