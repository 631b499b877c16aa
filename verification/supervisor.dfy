/**
  The session supervisor: the body of the main thread's endless loop. Every
  500 ms it either tries to start a shell on the USB serial port (when it
  holds no shell thread and the USB device is active) or, when it holds one,
  checks whether that thread has terminated and if so releases and forgets
  it. The USB state, the result of creating the shell thread and the
  termination test are inputs of each poll; the sleep is not modelled.
 */
module Supervisor {
  import opened Kernel

  /** What one poll observes of the outside world. `created` is what
      `shellCreate` would return (None for NULL) and is used only when a
      creation is attempted; `terminated` is the termination test of the held
      thread and is used only when one is held. */
  datatype Observation = Observation(usbActive: bool, created: Option<Handle>, terminated: bool)

  /** The outcome of one poll: the shell handle held afterwards, whether
      creation was attempted, and the handle released, if any. */
  datatype PollResult = PollResult(next: Option<Handle>, attempted: bool, released: Option<Handle>)

  /** One pass of the supervisor loop. */
  function Poll(held: Option<Handle>, obs: Observation): (r: PollResult)
    // creation is tried exactly when nothing is held and the USB device is active
    ensures r.attempted <==> held.None? && obs.usbActive
    ensures r.attempted ==> r.next == obs.created
    ensures held.None? && !obs.usbActive ==> r.next == None
    // a held handle is released exactly when it is seen terminated, and then forgotten
    ensures r.released.Some? <==> held.Some? && obs.terminated
    ensures r.released.Some? ==> r.released == held && r.next == None
    // otherwise it is kept, whatever the USB state and the creation result
    ensures held.Some? && !obs.terminated ==> r.next == held && !r.attempted
  {
    match held
    case None =>
      if obs.usbActive then PollResult(obs.created, true, None)
      else PollResult(None, false, None)
    case Some(h) =>
      if obs.terminated then PollResult(None, false, Some(h))
      else PollResult(held, false, None)
  }

  /** The handle held before each poll of a run of polls, and after the last. */
  function States(s0: Option<Handle>, obs: seq<Observation>): (r: seq<Option<Handle>>)
    ensures |r| == |obs| + 1
    ensures r[0] == s0
    ensures forall i {:trigger obs[i]} :: 0 <= i < |obs| ==> r[i + 1] == Poll(r[i], obs[i]).next
    decreases |obs|
  {
    if |obs| == 0 then [s0]
    else
      var p := States(s0, obs[..|obs| - 1]);
      p + [Poll(p[|obs| - 1], obs[|obs| - 1]).next]
  }

  /** Poll `i` of a run that starts with no shell. */
  function PollAt(obs: seq<Observation>, i: nat): PollResult
    requires i < |obs|
  {
    Poll(States(None, obs)[i], obs[i])
  }

  /** Creation results are fresh: a handle returned by one poll is never
      returned by a later one. */
  predicate FreshCreations(obs: seq<Observation>)
  {
    forall a, b :: 0 <= a < b < |obs| && obs[a].created.Some? ==> obs[a].created != obs[b].created
  }

  /** A held handle was obtained by an earlier creation, and has been held
      continuously since. */
  lemma {:induction false} HeldSinceCreation(obs: seq<Observation>, j: nat, h: Handle)
    requires j <= |obs|
    requires States(None, obs)[j] == Some(h)
    ensures exists k :: 0 <= k < j && PollAt(obs, k).attempted && obs[k].created == Some(h)
                        && forall m :: k < m <= j ==> States(None, obs)[m] == Some(h)
  {
    var s := States(None, obs);
    assert j > 0;
    if s[j - 1] == Some(h) {
      HeldSinceCreation(obs, j - 1, h);
      var k :| 0 <= k < j - 1 && PollAt(obs, k).attempted && obs[k].created == Some(h)
               && forall m :: k < m <= j - 1 ==> s[m] == Some(h);
      assert forall m :: k < m <= j ==> s[m] == Some(h);
    } else {
      assert s[j] == Poll(s[j - 1], obs[j - 1]).next;
      assert PollAt(obs, j - 1).attempted && obs[j - 1].created == Some(h);
    }
  }

  /** A handle is released only in a poll that sees it terminated, is cleared in
      that same poll, and was created by an earlier poll and held without a
      break until then. */
  lemma {:induction false} ReleaseFollowsCreation(obs: seq<Observation>, j: nat, h: Handle)
    requires j < |obs|
    requires PollAt(obs, j).released == Some(h)
    ensures obs[j].terminated
    ensures States(None, obs)[j] == Some(h) && States(None, obs)[j + 1] == None
    ensures exists k :: 0 <= k < j && PollAt(obs, k).attempted && obs[k].created == Some(h)
                        && forall m :: k < m <= j ==> States(None, obs)[m] == Some(h)
  {
    var s := States(None, obs);
    assert s[j] == Some(h) && s[j + 1] == Poll(s[j], obs[j]).next;
    HeldSinceCreation(obs, j, h);
  }

  /** With fresh creation results, no handle is released twice. */
  lemma ReleasedAtMostOnce(obs: seq<Observation>, i: nat, j: nat, h: Handle)
    requires FreshCreations(obs)
    requires i < j < |obs|
    requires PollAt(obs, i).released == Some(h)
    ensures PollAt(obs, j).released != Some(h)
  {
    if PollAt(obs, j).released == Some(h) {
      ReleaseFollowsCreation(obs, i, h);
      ReleaseFollowsCreation(obs, j, h);
    }
  }

  /** Without any assumption on creation results: two releases of the same
      handle value have a fresh creation of that value between them, so each
      creation is released at most once. */
  lemma ReleasedAgainOnlyAfterRecreation(obs: seq<Observation>, i: nat, j: nat, h: Handle)
    requires i < j < |obs|
    requires PollAt(obs, i).released == Some(h) && PollAt(obs, j).released == Some(h)
    ensures exists k :: i < k < j && PollAt(obs, k).attempted && obs[k].created == Some(h)
  {
    ReleaseFollowsCreation(obs, i, h);
    ReleaseFollowsCreation(obs, j, h);
    var k :| 0 <= k < j && PollAt(obs, k).attempted && obs[k].created == Some(h)
             && forall m :: k < m <= j ==> States(None, obs)[m] == Some(h);
    // k <= i would have h held right after poll i, which cleared it
    if k <= i {
      assert false;
    }
  }

  /** While the held shell has not terminated the supervisor keeps it: no
      change of USB state (a disconnect included) and no creation result
      clears it or starts a second shell. */
  lemma {:induction false} HeldUntilTerminated(h: Handle, obs: seq<Observation>, i: nat)
    requires forall m :: 0 <= m < |obs| ==> !obs[m].terminated
    requires i <= |obs|
    ensures States(Some(h), obs)[i] == Some(h)
    ensures i < |obs| ==> !Poll(States(Some(h), obs)[i], obs[i]).attempted
  {
    if i > 0 {
      HeldUntilTerminated(h, obs, i - 1);
    }
  }

  /** Retrying after a failed creation, and starting afresh after a release:
      once nothing is held, an active USB device and a successful creation give
      a new session. */
  lemma Reconnect(h: Handle, h2: Handle, failed: Observation, ended: Observation, active: Observation)
    requires failed.usbActive && failed.created == None
    requires ended.terminated
    requires active.usbActive && active.created == Some(h2)
    ensures Poll(None, failed).attempted && Poll(None, failed).next == None
    ensures Poll(Some(h), ended).released == Some(h)
    ensures Poll(Poll(Some(h), ended).next, active).next == Some(h2)
  {
  }

  /** No handle occurs twice in `hs`. */
  predicate Distinct(hs: seq<Handle>)
  {
    forall a, b :: 0 <= a < b < |hs| ==> hs[a] != hs[b]
  }

  /** One of the first `n` polls of the run saw `h` terminated and released it. */
  predicate ReleasedByTerminatedPoll(obs: seq<Observation>, n: nat, h: Handle)
    requires n <= |obs|
  {
    exists k :: 0 <= k < n && obs[k].terminated && PollAt(obs, k).released == Some(h)
  }

  /** The handles released by the first `i` polls of a run that starts with no
      shell, in the order released. */
  function ReleasedBefore(obs: seq<Observation>, i: nat): seq<Handle>
    requires i <= |obs|
  {
    if i == 0 then []
    else
      match PollAt(obs, i - 1).released
      case None => ReleasedBefore(obs, i - 1)
      case Some(h) => ReleasedBefore(obs, i - 1) + [h]
  }

  /** Every handle among the first `i` polls' releases was released by a poll
      that saw it terminated, and with fresh creation results none is released
      twice. */
  lemma {:induction false} ReleasedBeforeFacts(obs: seq<Observation>, i: nat)
    requires i <= |obs|
    ensures forall x :: x in ReleasedBefore(obs, i) ==> ReleasedByTerminatedPoll(obs, i, x)
    ensures FreshCreations(obs) ==> Distinct(ReleasedBefore(obs, i))
  {
    if i > 0 {
      ReleasedBeforeFacts(obs, i - 1);
      var p := ReleasedBefore(obs, i - 1);
      match PollAt(obs, i - 1).released
      case None =>
      case Some(h) =>
        assert obs[i - 1].terminated;
        if FreshCreations(obs) {
          var r := p + [h];
          forall a, b | 0 <= a < b < |r| ensures r[a] != r[b] {
            if b == |p| {
              assert p[a] in p;
              var k :| 0 <= k < i - 1 && obs[k].terminated && PollAt(obs, k).released == Some(p[a]);
              ReleasedAtMostOnce(obs, k, i - 1, p[a]);
            }
          }
        }
    }
  }

  /** The handle held after every poll of a run that starts with no shell. */
  function FinalHeld(obs: seq<Observation>): Option<Handle>
  {
    States(None, obs)[|obs|]
  }

  /** The handles released over a whole run that starts with no shell, in order. */
  function Releases(obs: seq<Observation>): seq<Handle>
  {
    ReleasedBefore(obs, |obs|)
  }

  /** What the supervisor loop leaves after a finite run: the handle held at
      the end, and the handles released, in order. */
  datatype RunResult = RunResult(held: Option<Handle>, released: seq<Handle>)

  /** The supervisor loop over a finite run of polls, starting with no shell.
      It ends holding what `States` predicts and releases what the successive
      polls release; every released handle was seen terminated in the poll
      that released it, and with fresh creation results no handle is released
      twice. */
  method MainLoop(obs: seq<Observation>) returns (r: RunResult)
    ensures r.held == FinalHeld(obs)
    ensures r.released == Releases(obs)
    ensures forall x :: x in r.released ==> exists k :: 0 <= k < |obs| && obs[k].terminated && PollAt(obs, k).released == Some(x)
    ensures FreshCreations(obs) ==> Distinct(r.released)
  {
    var held: Option<Handle> := None;
    var released: seq<Handle> := [];
    var i := 0;
    while i < |obs|
      invariant 0 <= i <= |obs|
      invariant held == States(None, obs)[i]
      invariant released == ReleasedBefore(obs, i)
    {
      var p := Poll(held, obs[i]);
      if p.released.Some? {
        released := released + [p.released.value];
      }
      held := p.next;
      i := i + 1;
    }
    ReleasedBeforeFacts(obs, |obs|);
    r := RunResult(held, released);
  }
}
