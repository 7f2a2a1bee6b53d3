/** `InternalRunLoop`: the table of descriptor callbacks that the Linux message
    loop polls, with the buffer of pending registrations and removals that is
    applied only by the loop thread. Locks are left out: every operation is one
    atomic step. The `poll` system call is an input (the set of descriptors it
    reports ready), and a callback is an opaque id whose run submits requests
    to register or unregister descriptors. */
module RunLoop {
  import opened FdSequences

  /** Identity of a registered `std::function<void (int)>`. */
  type CallbackId = nat

  /** One element of `fdReadCallbacks`: a descriptor and its callback. */
  datatype FdCallback = FdCallback(fd: int, callback: CallbackId)

  /** One element of `pfds`, the array handed to `poll`. */
  datatype PollFd = PollFd(fd: int, events: int, revents: int)

  /** One element of `pendingAdditions`. */
  datatype Addition = Addition(fd: int, callback: CallbackId, pfd: PollFd)

  /** What a running callback may ask of the loop. */
  datatype Request =
    | Register(fd: int, callback: CallbackId, eventMask: int)
    | Unregister(fd: int)

  /** The requests that one run of a callback, given the descriptor it is
      called with, submits. */
  type Effect = (CallbackId, int) -> seq<Request>

  /** The four vectors of an `InternalRunLoop`. */
  datatype LoopState = LoopState(
    callbacks: seq<FdCallback>,
    pfds: seq<PollFd>,
    additions: seq<Addition>,
    removals: seq<int>)

  function CallbackFd(c: FdCallback): int { c.fd }

  function PollFdFd(p: PollFd): int { p.fd }

  /** The loop's invariant: the two live vectors are parallel (the same
      descriptor at every position), and each pending addition carries a
      poll entry for its own descriptor. */
  predicate Consistent(s: LoopState)
  {
    Keys(s.callbacks, CallbackFd) == Keys(s.pfds, PollFdFd) &&
    forall a :: a in s.additions ==> a.pfd.fd == a.fd
  }

  /** Nothing is waiting in the pending buffers. */
  predicate NothingPending(s: LoopState)
  {
    s.additions == [] && s.removals == []
  }

  // ---------------------------------------------------------------------------
  // Registration requests

  /** The pending addition that `registerFdCallback` builds: the poll entry
      starts with no reported events. */
  function NewAddition(fd: int, callback: CallbackId, eventMask: int): Addition
  {
    Addition(fd, callback, PollFd(fd, eventMask, 0))
  }

  /** The state after the requests of `reqs` were submitted, in order, through
      `registerFdCallback` and `unregisterFdCallback`. */
  function Submit(s: LoopState, reqs: seq<Request>): LoopState
  {
    if reqs == [] then s
    else
      var s' := Submit(s, reqs[..|reqs| - 1]);
      match reqs[|reqs| - 1]
      case Register(fd, callback, eventMask) => s'.(additions := s'.additions + [NewAddition(fd, callback, eventMask)])
      case Unregister(fd) => s'.(removals := s'.removals + [fd])
  }

  /** Submitting requests never touches the live vectors, and each request
      adds exactly one pending entry. */
  lemma {:induction false} SubmitOnlyAppends(s: LoopState, reqs: seq<Request>)
    ensures Submit(s, reqs).callbacks == s.callbacks && Submit(s, reqs).pfds == s.pfds
    ensures s.additions <= Submit(s, reqs).additions && s.removals <= Submit(s, reqs).removals
    ensures |Submit(s, reqs).additions| + |Submit(s, reqs).removals| == |s.additions| + |s.removals| + |reqs|
  {
    if reqs != [] {
      SubmitOnlyAppends(s, reqs[..|reqs| - 1]);
    }
  }

  /** Submitting requests keeps the loop's invariant. */
  lemma {:induction false} SubmitConsistent(s: LoopState, reqs: seq<Request>)
    requires Consistent(s)
    ensures Consistent(Submit(s, reqs))
  {
    if reqs != [] {
      SubmitConsistent(s, reqs[..|reqs| - 1]);
    }
  }

  /** Every submitted removal ends up in the pending removals. */
  lemma {:induction false} SubmittedRemovalPending(s: LoopState, reqs: seq<Request>, fd: int)
    requires Unregister(fd) in reqs
    ensures fd in Submit(s, reqs).removals
  {
    var last := reqs[|reqs| - 1];
    var reqs' := reqs[..|reqs| - 1];
    assert reqs == reqs' + [last];
    if last != Unregister(fd) {
      SubmittedRemovalPending(s, reqs', fd);
      SubmitOnlyAppends(Submit(s, reqs'), [last]);
      assert [last][..0] == [];
    }
  }

  // ---------------------------------------------------------------------------
  // Applying the pending changes

  /** The `fdReadCallbacks` entries that the pending additions append, in
      submission order. */
  function AddedCallbacks(adds: seq<Addition>): seq<FdCallback>
  {
    seq(|adds|, i requires 0 <= i < |adds| => FdCallback(adds[i].fd, adds[i].callback))
  }

  /** The `pfds` entries that the pending additions append, in submission order. */
  function AddedPfds(adds: seq<Addition>): seq<PollFd>
  {
    seq(|adds|, i requires 0 <= i < |adds| => adds[i].pfd)
  }

  /** What `applyPendingChanges` makes of a state: nothing when both buffers
      are empty; otherwise every addition appended to both live vectors, then
      every pending removal applied to the result, then both buffers cleared. */
  function Applied(s: LoopState): (r: LoopState)
    ensures NothingPending(r)
    ensures NothingPending(s) ==> r == s
  {
    if NothingPending(s) then s
    else
      LoopState(
        WithoutAll(s.callbacks + AddedCallbacks(s.additions), CallbackFd, s.removals),
        WithoutAll(s.pfds + AddedPfds(s.additions), PollFdFd, s.removals),
        [], [])
  }

  /** Applying keeps the two live vectors parallel. */
  lemma {:induction false} ApplyConsistent(s: LoopState)
    requires Consistent(s)
    ensures Consistent(Applied(s))
  {
    if !NothingPending(s) {
      var cbs := s.callbacks + AddedCallbacks(s.additions);
      var ps := s.pfds + AddedPfds(s.additions);
      KeysConcat(s.callbacks, AddedCallbacks(s.additions), CallbackFd);
      KeysConcat(s.pfds, AddedPfds(s.additions), PollFdFd);
      assert Keys(AddedCallbacks(s.additions), CallbackFd) == Keys(AddedPfds(s.additions), PollFdFd) by {
        forall i | 0 <= i < |s.additions|
          ensures CallbackFd(AddedCallbacks(s.additions)[i]) == PollFdFd(AddedPfds(s.additions)[i])
        {
          assert s.additions[i] in s.additions;
        }
        SameKeys(AddedCallbacks(s.additions), CallbackFd, AddedPfds(s.additions), PollFdFd);
      }
      WithoutAllAgreement(cbs, CallbackFd, ps, PollFdFd, s.removals);
    }
  }

  /** Order after applying: the surviving live entries keep their places, and
      the surviving additions follow them in submission order. */
  lemma {:induction false} ApplyOrder(s: LoopState)
    ensures Applied(s).callbacks ==
            WithoutAll(s.callbacks, CallbackFd, s.removals) + WithoutAll(AddedCallbacks(s.additions), CallbackFd, s.removals)
    ensures Applied(s).pfds ==
            WithoutAll(s.pfds, PollFdFd, s.removals) + WithoutAll(AddedPfds(s.additions), PollFdFd, s.removals)
  {
    WithoutAllConcat(s.callbacks, AddedCallbacks(s.additions), CallbackFd, s.removals);
    WithoutAllConcat(s.pfds, AddedPfds(s.additions), PollFdFd, s.removals);
    if NothingPending(s) {
      assert AddedCallbacks(s.additions) == [] && AddedPfds(s.additions) == [];
      assert s.callbacks + [] == s.callbacks && s.pfds + [] == s.pfds;
    }
  }

  /** Membership after applying: an entry is live exactly when it was live or
      pending as an addition, and its descriptor is not pending removal. So a
      removal cancels an addition of the same batch whatever the order in which
      the two were submitted. */
  lemma {:induction false} ApplyMembers(s: LoopState, c: FdCallback, p: PollFd)
    ensures c in Applied(s).callbacks <==>
            (c in s.callbacks || c in AddedCallbacks(s.additions)) && c.fd !in s.removals
    ensures p in Applied(s).pfds <==>
            (p in s.pfds || p in AddedPfds(s.additions)) && p.fd !in s.removals
  {
    WithoutAllMembers(s.callbacks + AddedCallbacks(s.additions), CallbackFd, s.removals, c);
    WithoutAllMembers(s.pfds + AddedPfds(s.additions), PollFdFd, s.removals, p);
    if NothingPending(s) {
      assert AddedCallbacks(s.additions) == [] && AddedPfds(s.additions) == [];
    }
  }

  /** Once a batch holding `Unregister(fd)` is applied, no entry for `fd` is
      left in either live vector, even if the batch registers `fd` again after
      unregistering it. */
  lemma {:induction false} RemovalWinsInBatch(s: LoopState, reqs: seq<Request>, fd: int)
    requires Unregister(fd) in reqs
    ensures forall c :: c in Applied(Submit(s, reqs)).callbacks ==> c.fd != fd
    ensures forall p :: p in Applied(Submit(s, reqs)).pfds ==> p.fd != fd
  {
    SubmittedRemovalPending(s, reqs, fd);
    var t := Submit(s, reqs);
    forall c | c in Applied(t).callbacks ensures c.fd != fd {
      ApplyMembers(t, c, PollFd(0, 0, 0));
    }
    forall p | p in Applied(t).pfds ensures p.fd != fd {
      ApplyMembers(t, FdCallback(0, 0), p);
    }
  }

  // ---------------------------------------------------------------------------
  // One dispatch pass

  /** The `revents` value that `poll` reports for a ready descriptor. */
  const PollIn := 1

  /** The poll entries as `poll` leaves them: `revents` is overwritten on every
      entry, nonzero exactly on those whose descriptor is ready. */
  function Polled(pfds: seq<PollFd>, ready: set<int>): (r: seq<PollFd>)
    ensures |r| == |pfds|
    ensures forall i :: 0 <= i < |r| ==> r[i].fd == pfds[i].fd && r[i].events == pfds[i].events
    ensures forall i :: 0 <= i < |r| ==> (r[i].revents != 0 <==> pfds[i].fd in ready)
  {
    seq(|pfds|, i requires 0 <= i < |pfds| => pfds[i].(revents := if pfds[i].fd in ready then PollIn else 0))
  }

  /** The value `poll` returns: the number of entries with nonzero `revents`. */
  function ReadyCount(pfds: seq<PollFd>): (n: nat)
    ensures n <= |pfds|
    ensures n == 0 <==> forall i :: 0 <= i < |pfds| ==> pfds[i].revents == 0
  {
    if pfds == [] then 0
    else ReadyCount(pfds[..|pfds| - 1]) + (if pfds[|pfds| - 1].revents != 0 then 1 else 0)
  }

  /** The poll entries with `revents` set back to 0 on the first `n` of them. */
  function ResetThrough(pfds: seq<PollFd>, n: nat): (r: seq<PollFd>)
    ensures |r| == |pfds|
    ensures forall i :: 0 <= i < |r| ==> r[i].fd == pfds[i].fd && r[i].events == pfds[i].events
    ensures forall i :: 0 <= i < |r| ==> r[i].revents == if i < n then 0 else pfds[i].revents
  {
    seq(|pfds|, i requires 0 <= i < |pfds| => if i < n then pfds[i].(revents := 0) else pfds[i])
  }

  /** One callback run: the index of the poll entry being served, its
      descriptor, and the callback run for it. */
  datatype Invocation = Invocation(entry: nat, fd: int, callback: CallbackId)

  /** The runs of the callbacks registered for `fd`, in table order, while
      serving poll entry `entry`. */
  function Matching(cbs: seq<FdCallback>, fd: int, entry: nat): seq<Invocation>
  {
    if cbs == [] then []
    else
      var rest := Matching(cbs[..|cbs| - 1], fd, entry);
      var c := cbs[|cbs| - 1];
      if c.fd == fd then rest + [Invocation(entry, fd, c.callback)] else rest
  }

  /** Every callback run that a pass over the polled entries `ps` makes if no
      callback leaves requests pending. */
  function Invocations(cbs: seq<FdCallback>, ps: seq<PollFd>): seq<Invocation>
  {
    if ps == [] then []
    else
      var rest := Invocations(cbs, ps[..|ps| - 1]);
      var p := ps[|ps| - 1];
      if p.revents != 0 then rest + Matching(cbs, p.fd, |ps| - 1) else rest
  }

  /** The requests one callback run submits. */
  function Reaction(effect: Effect, inv: Invocation): seq<Request>
  {
    effect(inv.callback, inv.fd)
  }

  /** No run of `invs` submits anything. */
  predicate Quiet(invs: seq<Invocation>, effect: Effect)
  {
    forall k :: 0 <= k < |invs| ==> Reaction(effect, invs[k]) == []
  }

  /** The index of the first run that submits requests, or `|invs|`. */
  function FirstReacting(invs: seq<Invocation>, effect: Effect): (k: nat)
    ensures k <= |invs|
    ensures Quiet(invs[..k], effect)
    ensures k < |invs| ==> Reaction(effect, invs[k]) != []
  {
    if invs == [] then 0
    else if Reaction(effect, invs[0]) != [] then 0
    else
      var k := 1 + FirstReacting(invs[1..], effect);
      assert forall m :: 1 <= m < k ==> invs[..k][m] == invs[1..][..k - 1][m - 1];
      k
  }

  /** The runs a full pass would make, starting from `s` with `ready` reported. */
  function PassInvocations(s: LoopState, ready: set<int>): seq<Invocation>
  {
    var a := Applied(s);
    Invocations(a.callbacks, Polled(a.pfds, ready))
  }

  /** What `dispatchPendingEvents` returns, and the state it leaves. */
  datatype Outcome = Outcome(sent: bool, state: LoopState)

  /** One dispatch pass: apply the pending changes; poll; if nothing is ready
      report false. Otherwise serve the ready entries in order; the first
      callback run that leaves requests pending has them applied and ends the
      pass with true; if none does, report whether any callback ran. */
  function Dispatch(s: LoopState, ready: set<int>, effect: Effect): Outcome
  {
    var a := Applied(s);
    var polled := Polled(a.pfds, ready);
    if ReadyCount(polled) == 0 then Outcome(false, a.(pfds := polled))
    else
      var invs := PassInvocations(s, ready);
      var k := FirstReacting(invs, effect);
      if k < |invs| then
        Outcome(true, Applied(Submit(a.(pfds := ResetThrough(polled, invs[k].entry + 1)), Reaction(effect, invs[k]))))
      else
        Outcome(|invs| > 0, a.(pfds := ResetThrough(polled, |polled|)))
  }

  /** The callback runs that one dispatch pass makes: none if poll reports
      nothing; otherwise the runs of a full pass, up to and including the
      first one that leaves requests pending. */
  function DispatchRuns(s: LoopState, ready: set<int>, effect: Effect): seq<Invocation>
  {
    var a := Applied(s);
    if ReadyCount(Polled(a.pfds, ready)) == 0 then []
    else
      var invs := PassInvocations(s, ready);
      var k := FirstReacting(invs, effect);
      if k < |invs| then invs[..k + 1] else invs
  }

  // ---------------------------------------------------------------------------
  // Facts about passes

  lemma {:induction false} InvocationsStep(cbs: seq<FdCallback>, ps: seq<PollFd>, i: nat)
    requires i < |ps|
    ensures Invocations(cbs, ps[..i + 1]) ==
            Invocations(cbs, ps[..i]) + (if ps[i].revents != 0 then Matching(cbs, ps[i].fd, i) else [])
  {
    assert ps[..i + 1][..i] == ps[..i];
  }

  lemma {:induction false} MatchingStep(cbs: seq<FdCallback>, fd: int, entry: nat, j: nat)
    requires j < |cbs|
    ensures Matching(cbs[..j + 1], fd, entry) ==
            Matching(cbs[..j], fd, entry) + (if cbs[j].fd == fd then [Invocation(entry, fd, cbs[j].callback)] else [])
  {
    assert cbs[..j + 1][..j] == cbs[..j];
  }

  lemma {:induction false} InvocationsPrefix(cbs: seq<FdCallback>, ps: seq<PollFd>, m: nat)
    requires m <= |ps|
    ensures Invocations(cbs, ps[..m]) <= Invocations(cbs, ps)
    decreases |ps| - m
  {
    if m < |ps| {
      InvocationsPrefix(cbs, ps, m + 1);
      InvocationsStep(cbs, ps, m);
    } else {
      assert ps[..m] == ps;
    }
  }

  lemma {:induction false} MatchingPrefix(cbs: seq<FdCallback>, fd: int, entry: nat, m: nat)
    requires m <= |cbs|
    ensures Matching(cbs[..m], fd, entry) <= Matching(cbs, fd, entry)
    decreases |cbs| - m
  {
    if m < |cbs| {
      MatchingPrefix(cbs, fd, entry, m + 1);
      MatchingStep(cbs, fd, entry, m);
    } else {
      assert cbs[..m] == cbs;
    }
  }

  /** The first reacting run is determined by the runs before it being quiet. */
  lemma {:induction false} FirstReactingAt(invs: seq<Invocation>, effect: Effect, k: nat)
    requires k < |invs|
    requires Quiet(invs[..k], effect) && Reaction(effect, invs[k]) != []
    ensures FirstReacting(invs, effect) == k
  {
    if k > 0 {
      assert invs[..k][0] == invs[0];
      assert invs[1..][..k - 1] == invs[..k][1..];
      FirstReactingAt(invs[1..], effect, k - 1);
    }
  }

  lemma {:induction false} PolledKeys(pfds: seq<PollFd>, ready: set<int>)
    ensures Keys(Polled(pfds, ready), PollFdFd) == Keys(pfds, PollFdFd)
  {
    SameKeys(Polled(pfds, ready), PollFdFd, pfds, PollFdFd);
  }

  lemma {:induction false} ResetKeys(pfds: seq<PollFd>, n: nat)
    ensures Keys(ResetThrough(pfds, n), PollFdFd) == Keys(pfds, PollFdFd)
  {
    SameKeys(ResetThrough(pfds, n), PollFdFd, pfds, PollFdFd);
  }

  /** The pass stops at the first run that leaves requests pending: if the runs
      before run `j` of entry `i` were quiet and that run is not, it is the
      first reacting run of the whole pass. */
  lemma {:induction false} EarlyExit(cbs: seq<FdCallback>, polled: seq<PollFd>, effect: Effect, i: nat, j: nat)
    requires i < |polled| && polled[i].revents != 0
    requires j < |cbs| && cbs[j].fd == polled[i].fd
    requires Quiet(Invocations(cbs, polled[..i]) + Matching(cbs[..j], polled[i].fd, i), effect)
    requires Reaction(effect, Invocation(i, polled[i].fd, cbs[j].callback)) != []
    ensures var invs := Invocations(cbs, polled);
            FirstReacting(invs, effect) < |invs| &&
            invs[FirstReacting(invs, effect)] == Invocation(i, polled[i].fd, cbs[j].callback) &&
            invs[..FirstReacting(invs, effect) + 1] == Invocations(cbs, polled[..i]) + Matching(cbs[..j + 1], polled[i].fd, i)
  {
    var fd := polled[i].fd;
    var inv := Invocation(i, fd, cbs[j].callback);
    var invs := Invocations(cbs, polled);
    var q := Invocations(cbs, polled[..i]) + Matching(cbs[..j], fd, i);
    MatchingStep(cbs, fd, i, j);
    MatchingPrefix(cbs, fd, i, j + 1);
    InvocationsStep(cbs, polled, i);
    InvocationsPrefix(cbs, polled, i + 1);
    assert polled[..|polled|] == polled;
    assert q + [inv] <= invs;
    assert invs[..|q|] == q && invs[|q|] == inv;
    assert invs[..|q| + 1] == q + [inv];
    FirstReactingAt(invs, effect, |q|);
  }

  /** A run sequence is quiet exactly when both of its parts are. */
  lemma {:induction false} QuietConcat(a: seq<Invocation>, b: seq<Invocation>, effect: Effect)
    ensures Quiet(a + b, effect) <==> Quiet(a, effect) && Quiet(b, effect)
  {
    if Quiet(a, effect) && Quiet(b, effect) {
      forall k | 0 <= k < |a + b| ensures Reaction(effect, (a + b)[k]) == [] {
        if k >= |a| {
          assert (a + b)[k] == b[k - |a|];
        }
      }
    }
    if Quiet(a + b, effect) {
      forall k | 0 <= k < |a| ensures Reaction(effect, a[k]) == [] {
        assert (a + b)[k] == a[k];
      }
      forall k | 0 <= k < |b| ensures Reaction(effect, b[k]) == [] {
        assert (a + b)[|a| + k] == b[k];
      }
    }
  }

  /** Concatenation of run records is associative. */
  lemma ConcatAssoc(a: seq<Invocation>, b: seq<Invocation>, c: seq<Invocation>)
    ensures (a + b) + c == a + (b + c)
  {
  }

  /** One entry of a pass whose runs left nothing pending: the runs so far
      grow by the entry's runs and stay quiet. */
  lemma {:induction false} PassStep(cbs: seq<FdCallback>, polled: seq<PollFd>, effect: Effect, i: nat,
                                    served: seq<Invocation>, sent: bool, ran: bool)
    requires i < |polled|
    requires served == (if polled[i].revents != 0 then Matching(cbs, polled[i].fd, i) else [])
    requires Quiet(Invocations(cbs, polled[..i]), effect) && Quiet(served, effect)
    requires (sent <==> Invocations(cbs, polled[..i]) != []) && (ran <==> served != [])
    ensures Invocations(cbs, polled[..i + 1]) == Invocations(cbs, polled[..i]) + served
    ensures Quiet(Invocations(cbs, polled[..i + 1]), effect)
    ensures sent || ran <==> Invocations(cbs, polled[..i + 1]) != []
  {
    InvocationsStep(cbs, polled, i);
    QuietConcat(Invocations(cbs, polled[..i]), served, effect);
  }

  /** The pass that stops at run `j` of entry `i`: it has reset `revents`
      through entry `i`, and applied what that run submitted. */
  lemma {:induction false} DispatchStopsAt(s: LoopState, ready: set<int>, effect: Effect, i: nat, j: nat)
    requires var a := Applied(s); var polled := Polled(a.pfds, ready);
             i < |polled| && polled[i].revents != 0 &&
             j < |a.callbacks| && a.callbacks[j].fd == polled[i].fd &&
             Quiet(Invocations(a.callbacks, polled[..i]), effect) &&
             Quiet(Matching(a.callbacks[..j], polled[i].fd, i), effect) &&
             Reaction(effect, Invocation(i, polled[i].fd, a.callbacks[j].callback)) != []
    ensures var a := Applied(s); var polled := Polled(a.pfds, ready);
            Dispatch(s, ready, effect) ==
            Outcome(true, Applied(Submit(a.(pfds := ResetThrough(polled, i + 1)),
                                         Reaction(effect, Invocation(i, polled[i].fd, a.callbacks[j].callback))))) &&
            DispatchRuns(s, ready, effect) == Invocations(a.callbacks, polled[..i]) + Matching(a.callbacks[..j + 1], polled[i].fd, i)
  {
    var a := Applied(s);
    var polled := Polled(a.pfds, ready);
    QuietConcat(Invocations(a.callbacks, polled[..i]), Matching(a.callbacks[..j], polled[i].fd, i), effect);
    EarlyExit(a.callbacks, polled, effect, i, j);
    assert ReadyCount(polled) != 0;
  }

  /** The pass in which no run submitted anything: every reported entry was
      served and reset, and the result says whether any callback ran. */
  lemma {:induction false} DispatchRunsAll(s: LoopState, ready: set<int>, effect: Effect)
    requires var a := Applied(s); ReadyCount(Polled(a.pfds, ready)) != 0
    requires Quiet(PassInvocations(s, ready), effect)
    ensures var a := Applied(s); var polled := Polled(a.pfds, ready);
            Dispatch(s, ready, effect) ==
            Outcome(PassInvocations(s, ready) != [], a.(pfds := ResetThrough(polled, |polled|))) &&
            DispatchRuns(s, ready, effect) == PassInvocations(s, ready)
  {
    var invs := PassInvocations(s, ready);
    assert FirstReacting(invs, effect) == |invs|;
  }

  /** With nothing reported, a pass runs no callback. */
  lemma {:induction false} QuietPollNoInvocations(cbs: seq<FdCallback>, ps: seq<PollFd>)
    requires forall i :: 0 <= i < |ps| ==> ps[i].revents == 0
    ensures Invocations(cbs, ps) == []
  {
    if ps != [] {
      QuietPollNoInvocations(cbs, ps[..|ps| - 1]);
    }
  }

  /** Every run is of a callback registered in the table for its descriptor. */
  lemma {:induction false} MatchingFromTable(cbs: seq<FdCallback>, fd: int, entry: nat, inv: Invocation)
    requires inv in Matching(cbs, fd, entry)
    ensures FdCallback(inv.fd, inv.callback) in cbs && inv.fd == fd && inv.entry == entry
  {
    var cbs' := cbs[..|cbs| - 1];
    if inv !in Matching(cbs', fd, entry) {
      assert inv == Invocation(entry, fd, cbs[|cbs| - 1].callback);
    } else {
      MatchingFromTable(cbs', fd, entry, inv);
    }
  }

  lemma {:induction false} InvocationsFromTable(cbs: seq<FdCallback>, ps: seq<PollFd>, inv: Invocation)
    requires inv in Invocations(cbs, ps)
    ensures FdCallback(inv.fd, inv.callback) in cbs
    ensures inv.entry < |ps| && ps[inv.entry].fd == inv.fd && ps[inv.entry].revents != 0
  {
    var ps' := ps[..|ps| - 1];
    var p := ps[|ps| - 1];
    if inv in Invocations(cbs, ps') {
      InvocationsFromTable(cbs, ps', inv);
    } else {
      MatchingFromTable(cbs, p.fd, |ps| - 1, inv);
    }
  }

  /** With parallel vectors, a reported entry has at least one callback to run. */
  lemma {:induction false} ReportedEntryRuns(cbs: seq<FdCallback>, ps: seq<PollFd>, i: nat)
    requires Keys(cbs, CallbackFd) == Keys(ps, PollFdFd)
    requires i < |ps| && ps[i].revents != 0
    ensures Invocations(cbs, ps) != []
  {
    assert |cbs| == |Keys(cbs, CallbackFd)| == |ps|;
    assert Keys(cbs, CallbackFd)[i] == CallbackFd(cbs[i]);
    assert Keys(ps, PollFdFd)[i] == PollFdFd(ps[i]);
    MatchingPrefix(cbs, ps[i].fd, i, i + 1);
    MatchingStep(cbs, ps[i].fd, i, i);
    InvocationsStep(cbs, ps, i);
    InvocationsPrefix(cbs, ps, i + 1);
  }

  /** A pass never runs a callback outside the table as applied at its start,
      and only ever runs callbacks of descriptors that poll reported. */
  lemma {:induction false} PassRunsRegisteredCallbacks(s: LoopState, ready: set<int>, inv: Invocation)
    requires inv in PassInvocations(s, ready)
    ensures FdCallback(inv.fd, inv.callback) in Applied(s).callbacks && inv.fd in ready
  {
    var a := Applied(s);
    InvocationsFromTable(a.callbacks, Polled(a.pfds, ready), inv);
  }

  /** `dispatchPendingEvents` reports false, and only applies the pending
      changes, when no live descriptor is ready. */
  lemma {:induction false} DispatchIdle(s: LoopState, ready: set<int>, effect: Effect)
    requires forall p :: p in Applied(s).pfds ==> p.fd !in ready
    ensures !Dispatch(s, ready, effect).sent
    ensures Dispatch(s, ready, effect).state.callbacks == Applied(s).callbacks
    ensures Keys(Dispatch(s, ready, effect).state.pfds, PollFdFd) == Keys(Applied(s).pfds, PollFdFd)
    ensures NothingPending(Dispatch(s, ready, effect).state)
  {
    var a := Applied(s);
    var polled := Polled(a.pfds, ready);
    forall i | 0 <= i < |polled| ensures polled[i].revents == 0 {
      assert a.pfds[i] in a.pfds;
    }
    PolledKeys(a.pfds, ready);
  }

  /** With the invariant, a pass reports true exactly when poll reported some
      live descriptor ready. */
  lemma {:induction false} DispatchSentIffReady(s: LoopState, ready: set<int>, effect: Effect)
    requires Consistent(s)
    ensures Dispatch(s, ready, effect).sent <==>
            exists i :: 0 <= i < |Applied(s).pfds| && Applied(s).pfds[i].fd in ready
  {
    var a := Applied(s);
    var polled := Polled(a.pfds, ready);
    ApplyConsistent(s);
    if i :| 0 <= i < |a.pfds| && a.pfds[i].fd in ready {
      PolledKeys(a.pfds, ready);
      ReportedEntryRuns(a.callbacks, polled, i);
    }
  }

  /** A pass leaves both pending buffers empty and the two live vectors parallel. */
  lemma {:induction false} DispatchConsistent(s: LoopState, ready: set<int>, effect: Effect)
    requires Consistent(s)
    ensures NothingPending(Dispatch(s, ready, effect).state)
    ensures Consistent(Dispatch(s, ready, effect).state)
  {
    var a := Applied(s);
    ApplyConsistent(s);
    var polled := Polled(a.pfds, ready);
    PolledKeys(a.pfds, ready);
    ResetKeys(polled, |polled|);
    if ReadyCount(polled) != 0 {
      var invs := PassInvocations(s, ready);
      var k := FirstReacting(invs, effect);
      if k < |invs| {
        var b := a.(pfds := ResetThrough(polled, invs[k].entry + 1));
        ResetKeys(polled, invs[k].entry + 1);
        SubmitConsistent(b, Reaction(effect, invs[k]));
        ApplyConsistent(Submit(b, Reaction(effect, invs[k])));
      }
    }
  }

  /** A pass that no callback cut short leaves the table as applied, serves
      every reported entry and resets its `revents`, and reports true exactly
      when some callback ran. */
  lemma {:induction false} DispatchCompletedPass(s: LoopState, ready: set<int>, effect: Effect)
    requires Quiet(PassInvocations(s, ready), effect)
    ensures Dispatch(s, ready, effect).sent <==> PassInvocations(s, ready) != []
    ensures Dispatch(s, ready, effect).state.callbacks == Applied(s).callbacks
    ensures Keys(Dispatch(s, ready, effect).state.pfds, PollFdFd) == Keys(Applied(s).pfds, PollFdFd)
    ensures forall p :: p in Dispatch(s, ready, effect).state.pfds ==> p.revents == 0
  {
    var a := Applied(s);
    var polled := Polled(a.pfds, ready);
    var invs := PassInvocations(s, ready);
    PolledKeys(a.pfds, ready);
    ResetKeys(polled, |polled|);
    if ReadyCount(polled) == 0 {
      QuietPollNoInvocations(a.callbacks, polled);
    } else {
      var k := FirstReacting(invs, effect);
      assert k == |invs|;
    }
  }

  /** A callback that unregisters its own descriptor while it runs is never
      run for that descriptor again: the pass ends there, and the next pass
      makes no run for it, whatever poll reports then. */
  lemma {:induction false} SelfRemovalIsFinal(s: LoopState, ready: set<int>, effect: Effect, ready': set<int>)
    requires var invs := PassInvocations(s, ready);
             var k := FirstReacting(invs, effect);
             k < |invs| && Unregister(invs[k].fd) in Reaction(effect, invs[k])
    ensures var invs := PassInvocations(s, ready);
            var fd := invs[FirstReacting(invs, effect)].fd;
            Dispatch(s, ready, effect).sent &&
            forall inv :: inv in PassInvocations(Dispatch(s, ready, effect).state, ready') ==> inv.fd != fd
  {
    var a := Applied(s);
    var polled := Polled(a.pfds, ready);
    var invs := PassInvocations(s, ready);
    var k := FirstReacting(invs, effect);
    var fd := invs[k].fd;
    if ReadyCount(polled) == 0 {
      QuietPollNoInvocations(a.callbacks, polled);
      assert false;
    }
    var b := a.(pfds := ResetThrough(polled, invs[k].entry + 1));
    RemovalWinsInBatch(b, Reaction(effect, invs[k]), fd);
    var t := Dispatch(s, ready, effect).state;
    forall inv | inv in PassInvocations(t, ready') ensures inv.fd != fd {
      PassRunsRegisteredCallbacks(t, ready', inv);
    }
  }

  /** A pass reports true exactly when it ran some callback. */
  lemma {:induction false} DispatchSentIffRan(s: LoopState, ready: set<int>, effect: Effect)
    ensures Dispatch(s, ready, effect).sent <==> DispatchRuns(s, ready, effect) != []
  {
    var a := Applied(s);
    var polled := Polled(a.pfds, ready);
    var invs := PassInvocations(s, ready);
    var k := FirstReacting(invs, effect);
    if ReadyCount(polled) != 0 && k < |invs| {
      assert invs[..k + 1][k] == invs[k];
    }
  }

  /** The runs of a pass are a prefix of the runs of a full pass, each of a
      callback in the table as applied at the start, for a descriptor poll
      reported. */
  lemma {:induction false} DispatchRunsFromPass(s: LoopState, ready: set<int>, effect: Effect)
    ensures DispatchRuns(s, ready, effect) <= PassInvocations(s, ready)
    ensures forall inv :: inv in DispatchRuns(s, ready, effect) ==>
              FdCallback(inv.fd, inv.callback) in Applied(s).callbacks && inv.fd in ready
  {
    var invs := PassInvocations(s, ready);
    var runs := DispatchRuns(s, ready, effect);
    assert runs <= invs;
    forall inv | inv in runs
      ensures FdCallback(inv.fd, inv.callback) in Applied(s).callbacks && inv.fd in ready
    {
      assert inv in invs;
      PassRunsRegisteredCallbacks(s, ready, inv);
    }
  }

  /** Every run of a pass but the last submits nothing. */
  lemma {:induction false} DispatchRunsQuietBeforeLast(s: LoopState, ready: set<int>, effect: Effect)
    ensures var runs := DispatchRuns(s, ready, effect);
            runs != [] ==> Quiet(runs[..|runs| - 1], effect)
  {
    var invs := PassInvocations(s, ready);
    var k := FirstReacting(invs, effect);
    var runs := DispatchRuns(s, ready, effect);
    if runs != [] {
      if k < |invs| {
        assert runs[..|runs| - 1] == invs[..k];
      } else {
        assert runs[..|runs| - 1] == invs[..k][..|runs| - 1];
      }
    }
  }

  /** If the last run of a pass submits something, the pass ends with those
      requests applied, after resetting `revents` through that run's entry. */
  lemma {:induction false} DispatchRunsLastApplied(s: LoopState, ready: set<int>, effect: Effect)
    ensures var runs := DispatchRuns(s, ready, effect);
            var a := Applied(s); var polled := Polled(a.pfds, ready);
            runs != [] && Reaction(effect, runs[|runs| - 1]) != [] ==>
              Dispatch(s, ready, effect).state ==
              Applied(Submit(a.(pfds := ResetThrough(polled, runs[|runs| - 1].entry + 1)), Reaction(effect, runs[|runs| - 1])))
  {
    var invs := PassInvocations(s, ready);
    var k := FirstReacting(invs, effect);
    var runs := DispatchRuns(s, ready, effect);
    if runs != [] {
      if k < |invs| {
        assert runs[|runs| - 1] == invs[k];
      } else {
        assert invs[..k][|runs| - 1] == runs[|runs| - 1];
      }
    }
  }

  // ---------------------------------------------------------------------------
  // The class

  /** `std::remove_if` followed by `erase`: keeps the entries whose descriptor
      is not `fd`, in order. */
  method RemoveIf<T>(s: seq<T>, key: T -> int, fd: int) returns (kept: seq<T>)
    ensures kept == Without(s, key, fd)
  {
    kept := [];
    var i := 0;
    while i < |s|
      invariant 0 <= i <= |s|
      invariant kept == Without(s[..i], key, fd)
    {
      assert s[..i + 1][..i] == s[..i];
      if key(s[i]) != fd {
        kept := kept + [s[i]];
      }
      i := i + 1;
    }
    assert s[..i] == s;
  }

  class InternalRunLoop {
    var fdReadCallbacks: seq<FdCallback>
    var pfds: seq<PollFd>
    var pendingAdditions: seq<Addition>
    var pendingRemovals: seq<int>
    /** Every callback run so far, in order: a record kept for the proofs. */
    ghost var runs: seq<Invocation>

    function State(): LoopState
      reads this
    {
      LoopState(fdReadCallbacks, pfds, pendingAdditions, pendingRemovals)
    }

    /** A run loop starts with nothing registered and nothing pending. */
    constructor ()
      ensures State() == LoopState([], [], [], []) && runs == []
      ensures Consistent(State())
    {
      runs := [];
      fdReadCallbacks := [];
      pfds := [];
      pendingAdditions := [];
      pendingRemovals := [];
    }

    /** Queues a registration; the live vectors are untouched. */
    method RegisterFdCallback(fd: int, callback: CallbackId, eventMask: int)
      modifies this`pendingAdditions
      ensures pendingAdditions == old(pendingAdditions) + [NewAddition(fd, callback, eventMask)]
      ensures fdReadCallbacks == old(fdReadCallbacks) && pfds == old(pfds)
      ensures pendingRemovals == old(pendingRemovals)
    {
      pendingAdditions := pendingAdditions + [NewAddition(fd, callback, eventMask)];
    }

    /** Queues a removal; the live vectors are untouched. */
    method UnregisterFdCallback(fd: int)
      modifies this`pendingRemovals
      ensures pendingRemovals == old(pendingRemovals) + [fd]
      ensures fdReadCallbacks == old(fdReadCallbacks) && pfds == old(pfds)
      ensures pendingAdditions == old(pendingAdditions)
    {
      pendingRemovals := pendingRemovals + [fd];
    }

    /** Removes every entry for `fd` from both live vectors, keeping the others
      in order. */
    method RemoveFdCallback(fd: int)
      modifies this`fdReadCallbacks, this`pfds
      ensures fdReadCallbacks == Without(old(fdReadCallbacks), CallbackFd, fd)
      ensures pfds == Without(old(pfds), PollFdFd, fd)
      ensures pendingAdditions == old(pendingAdditions) && pendingRemovals == old(pendingRemovals)
    {
      fdReadCallbacks := RemoveIf(fdReadCallbacks, CallbackFd, fd);
      pfds := RemoveIf(pfds, PollFdFd, fd);
    }

    /** Applies the pending changes; reports whether there were any. */
    method ApplyPendingChanges() returns (changed: bool)
      modifies this
      ensures changed <==> !NothingPending(old(State()))
      ensures State() == Applied(old(State())) && runs == old(runs)
    {
      if pendingAdditions == [] && pendingRemovals == [] {
        return false;
      }
      var i := 0;
      while i < |pendingAdditions|
        invariant 0 <= i <= |pendingAdditions|
        invariant pendingAdditions == old(pendingAdditions) && pendingRemovals == old(pendingRemovals)
        invariant runs == old(runs)
        invariant fdReadCallbacks == old(fdReadCallbacks) + AddedCallbacks(pendingAdditions[..i])
        invariant pfds == old(pfds) + AddedPfds(pendingAdditions[..i])
      {
        var addition := pendingAdditions[i];
        assert AddedCallbacks(pendingAdditions[..i + 1]) ==
               AddedCallbacks(pendingAdditions[..i]) + [FdCallback(addition.fd, addition.callback)];
        assert AddedPfds(pendingAdditions[..i + 1]) == AddedPfds(pendingAdditions[..i]) + [addition.pfd];
        fdReadCallbacks := fdReadCallbacks + [FdCallback(addition.fd, addition.callback)];
        pfds := pfds + [addition.pfd];
        i := i + 1;
      }
      assert pendingAdditions[..i] == pendingAdditions;
      ghost var cbs := fdReadCallbacks;
      ghost var ps := pfds;
      var j := 0;
      while j < |pendingRemovals|
        invariant 0 <= j <= |pendingRemovals|
        invariant pendingAdditions == old(pendingAdditions) && pendingRemovals == old(pendingRemovals)
        invariant runs == old(runs)
        invariant fdReadCallbacks == WithoutAll(cbs, CallbackFd, pendingRemovals[..j])
        invariant pfds == WithoutAll(ps, PollFdFd, pendingRemovals[..j])
      {
        assert pendingRemovals[..j + 1][..j] == pendingRemovals[..j];
        RemoveFdCallback(pendingRemovals[j]);
        j := j + 1;
      }
      assert pendingRemovals[..j] == pendingRemovals;
      pendingAdditions := [];
      pendingRemovals := [];
      return true;
    }

    /** The `poll` call with no timeout: overwrites every `revents` from the
      set of ready descriptors and returns how many entries are ready. */
    method Poll(ready: set<int>) returns (count: nat)
      modifies this`pfds
      ensures pfds == Polled(old(pfds), ready) && count == ReadyCount(pfds)
    {
      pfds := Polled(pfds, ready);
      count := ReadyCount(pfds);
    }

    /** Runs a callback for poll entry `entry`: what it submits goes into the
      pending buffers only, and the run is recorded. */
    method InvokeCallback(callback: CallbackId, fd: int, ghost entry: nat, effect: Effect)
      modifies this`pendingAdditions, this`pendingRemovals, this`runs
      ensures State() == Submit(old(State()), effect(callback, fd))
      ensures runs == old(runs) + [Invocation(entry, fd, callback)]
    {
      runs := runs + [Invocation(entry, fd, callback)];
      var reqs := effect(callback, fd);
      var i := 0;
      while i < |reqs|
        invariant 0 <= i <= |reqs|
        invariant State() == Submit(old(State()), reqs[..i])
        invariant runs == old(runs) + [Invocation(entry, fd, callback)]
      {
        assert reqs[..i + 1][..i] == reqs[..i];
        match reqs[i] {
          case Register(f, c, m) => RegisterFdCallback(f, c, m);
          case Unregister(f) => UnregisterFdCallback(f);
        }
        i := i + 1;
      }
      assert reqs[..i] == reqs;
    }

    /** Serves poll entry `i` of a pass that started from the poll entries
      `polled` and the table `cbs`: if the entry was reported, resets its
      `revents` and runs, in table order, every callback registered for its
      descriptor. Stops after run `j` if that run left changes pending (they
      are applied); otherwise reports whether any callback ran. */
    method ServeEntry(i: nat, effect: Effect, ghost cbs: seq<FdCallback>, ghost polled: seq<PollFd>)
      returns (stop: bool, ran: bool, ghost j: nat, ghost served: seq<Invocation>)
      requires i < |polled| == |pfds|
      requires fdReadCallbacks == cbs && pendingAdditions == [] && pendingRemovals == []
      requires pfds == ResetThrough(polled, i)
      modifies this
      ensures runs == old(runs) + served
      ensures !stop ==>
        fdReadCallbacks == cbs && pendingAdditions == [] && pendingRemovals == [] &&
        pfds == ResetThrough(polled, i + 1) &&
        served == (if polled[i].revents != 0 then Matching(cbs, polled[i].fd, i) else []) &&
        Quiet(served, effect) && (ran <==> served != [])
      ensures stop ==>
        polled[i].revents != 0 && j < |cbs| && cbs[j].fd == polled[i].fd &&
        Quiet(Matching(cbs[..j], polled[i].fd, i), effect) &&
        served == Matching(cbs[..j + 1], polled[i].fd, i) &&
        var reaction := Reaction(effect, Invocation(i, polled[i].fd, cbs[j].callback));
        reaction != [] &&
        State() == Applied(Submit(LoopState(cbs, ResetThrough(polled, i + 1), [], []), reaction))
    {
      stop, ran, j, served := false, false, 0, [];
      ghost var runs0 := runs;
      if pfds[i].revents == 0 {
        assert pfds == ResetThrough(polled, i + 1);
        return;
      }
      pfds := pfds[i := pfds[i].(revents := 0)];
      assert pfds == ResetThrough(polled, i + 1);
      var fd := pfds[i].fd;
      var k := 0;
      while k < |fdReadCallbacks|
        invariant 0 <= k <= |fdReadCallbacks| == |cbs|
        invariant fdReadCallbacks == cbs && pendingAdditions == [] && pendingRemovals == []
        invariant pfds == ResetThrough(polled, i + 1)
        invariant Quiet(Matching(cbs[..k], fd, i), effect)
        invariant ran <==> Matching(cbs[..k], fd, i) != []
        invariant runs == runs0 + Matching(cbs[..k], fd, i)
      {
        MatchingStep(cbs, fd, i, k);
        if fdReadCallbacks[k].fd == fd {
          ghost var before := State();
          InvokeCallback(fdReadCallbacks[k].callback, fd, i, effect);
          SubmitOnlyAppends(before, effect(cbs[k].callback, fd));
          var changed := ApplyPendingChanges();
          ConcatAssoc(runs0, Matching(cbs[..k], fd, i), [Invocation(i, fd, cbs[k].callback)]);
          if changed {
            return true, true, k, Matching(cbs[..k + 1], fd, i);
          }
          ran := true;
        }
        k := k + 1;
      }
      assert cbs[..k] == cbs;
      served := Matching(cbs, fd, i);
    }

    /** The loop over the poll entries of a pass that started from `s` and
      found some entry ready: serves each entry in turn and returns at the
      first callback run that left changes pending. */
    method ServeReadyEntries(ghost s: LoopState, ready: set<int>, effect: Effect) returns (eventWasSent: bool)
      requires fdReadCallbacks == Applied(s).callbacks && pendingAdditions == [] && pendingRemovals == []
      requires pfds == Polled(Applied(s).pfds, ready) && ReadyCount(pfds) != 0
      modifies this
      ensures Outcome(eventWasSent, State()) == Dispatch(s, ready, effect)
      ensures runs == old(runs) + DispatchRuns(s, ready, effect)
    {
      ghost var cbs := fdReadCallbacks;
      ghost var polled := pfds;
      eventWasSent := false;
      var i := 0;
      while i < |pfds|
        invariant 0 <= i <= |pfds| == |polled|
        invariant fdReadCallbacks == cbs && pendingAdditions == [] && pendingRemovals == []
        invariant pfds == ResetThrough(polled, i)
        invariant Quiet(Invocations(cbs, polled[..i]), effect)
        invariant eventWasSent <==> Invocations(cbs, polled[..i]) != []
        invariant runs == old(runs) + Invocations(cbs, polled[..i])
      {
        var stop, ran, j, served := ServeEntry(i, effect, cbs, polled);
        ConcatAssoc(old(runs), Invocations(cbs, polled[..i]), served);
        if stop {
          DispatchStopsAt(s, ready, effect, i, j);
          return true;
        }
        PassStep(cbs, polled, effect, i, served, eventWasSent, ran);
        eventWasSent := eventWasSent || ran;
        i := i + 1;
      }
      assert polled[..i] == polled;
      DispatchRunsAll(s, ready, effect);
    }

    /** One dispatch pass over the ready descriptors. */
    method DispatchPendingEvents(ready: set<int>, effect: Effect) returns (eventWasSent: bool)
      modifies this
      ensures Outcome(eventWasSent, State()) == Dispatch(old(State()), ready, effect)
      ensures runs == old(runs) + DispatchRuns(old(State()), ready, effect)
    {
      ghost var s := State();
      var _ := ApplyPendingChanges();
      var count := Poll(ready);
      if count == 0 {
        return false;
      }
      eventWasSent := ServeReadyEntries(s, ready, effect);
    }
  }
}
