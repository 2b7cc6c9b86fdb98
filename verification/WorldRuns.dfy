/** What a run of the event loop is for one of its sessions: a run of the session machine. What holds of
    those, such as the order of the replies, holds of every session of the server. */
module WorldRuns {
  import opened Bytes
  import opened Framing
  import opened Session
  import opened SessionSafety
  import opened Replies
  import opened EventLoop

  /** The completions handled for a session, in order. */
  function EventsOf<T>(env: Env<T>, base: int, trans: T, w: World<T>, actions: seq<Action>, sid: nat): seq<Event>
    requires ValidActions(env, base, trans, w, actions)
    decreases |actions|
  {
    if actions == [] then []
    else Handled(w, actions[0], sid) + EventsOf(env, base, trans, Next(env, base, trans, w, actions[0]), actions[1..],
      sid)
  }

  function Handled<T>(w: World<T>, a: Action, sid: nat): seq<Event>
    requires Enabled(w, a)
  {
    if a.Handle? && !w.cq[0].AcceptCqe? && w.cq[0].sid == sid then [EventOf(w.cq[0])] else []
  }

  /** Addresses are handed out in order. */
  ghost predicate Numbered<T>(w: World<T>) {
    forall sid :: sid in w.sessions ==> sid < w.next && !SessionSafety.Freed(w.sessions[sid].log)
  }

  /** What one action does to a session that has been accepted. */
  lemma OneAction<T>(env: Env<T>, base: int, trans: T, w: World<T>, a: Action, sid: nat)
    requires Numbered(w) && Enabled(w, a) && (a.Handle? ==> Safe(w, w.cq[0])) && sid < w.next
    ensures var next, es := Next(env, base, trans, w, a), Handled(w, a, sid);
            && Numbered(next) && w.next <= next.next
            && (sid !in w.sessions ==> sid !in next.sessions && es == [])
            && (sid in w.sessions && es == [] ==> sid in next.sessions && next.sessions[sid] == w.sessions[sid])
            && (sid in w.sessions && es != [] ==>
                  && es == [es[0]] && Deliverable(w.sessions[sid], es[0])
                  && (var st := Step(env, w.sessions[sid], es[0]);
                      if SessionSafety.Freed(st.log) then sid !in next.sessions
                      else sid in next.sessions && next.sessions[sid] == st))
  {
    hide Step, Deliverable, NewSends, SessionEffects.ArmedSince;
  }

  /** The state a session reached after some events: it is in the world, or was freed by the last of them. */
  ghost predicate Reached<T>(env: Env<T>, st: State<T>, es: seq<Event>, w: World<T>, sid: nat) {
    && ValidRun(env, st, es)
    && if sid in w.sessions then w.sessions[sid] == Run(env, st, es) else SessionSafety.Freed(Run(env, st, es).log)
  }

  lemma {:induction false} GoneForGood<T>(env: Env<T>, base: int, trans: T, w: World<T>, actions: seq<Action>, sid: nat)
    requires Numbered(w) && ValidActions(env, base, trans, w, actions) && sid < w.next && sid !in w.sessions
    ensures sid !in Execute(env, base, trans, w, actions).sessions && EventsOf(env, base, trans, w, actions, sid) == []
    decreases |actions|
  {
    hide Next, Enabled, Safe, Handled, Numbered;
    if actions != [] {
      OneAction(env, base, trans, w, actions[0], sid);
      GoneForGood(env, base, trans, Next(env, base, trans, w, actions[0]), actions[1..], sid);
    }
  }

  lemma RunFirst<T>(env: Env<T>, st: State<T>, e: Event, later: seq<Event>)
    requires Deliverable(st, e) && ValidRun(env, Step(env, st, e), later)
    ensures ValidRun(env, st, [e] + later) && Run(env, st, [e] + later) == Run(env, Step(env, st, e), later)
  {
    hide Step, Deliverable;
    assert ([e] + later)[1..] == later;
  }

  lemma RunNothing<T>(env: Env<T>, st: State<T>)
    ensures ValidRun(env, st, []) && Run(env, st, []) == st
  {
  }

  /** From any world on, a session takes a run of the session machine. */
  lemma {:induction false} SessionFollows<T>(env: Env<T>, base: int, trans: T, w: World<T>, actions: seq<Action>,
      sid: nat)
    requires Numbered(w) && ValidActions(env, base, trans, w, actions) && sid in w.sessions
    ensures Reached(env, w.sessions[sid], EventsOf(env, base, trans, w, actions, sid),
                    Execute(env, base, trans, w, actions), sid)
    decreases |actions|
  {
    hide Next, Enabled, Safe, Handled, Step, Deliverable;
    if actions != [] {
      var a, es := actions[0], Handled(w, actions[0], sid);
      var next := Next(env, base, trans, w, a);
      OneAction(env, base, trans, w, a, sid);
      if sid in next.sessions {
        SessionFollows(env, base, trans, next, actions[1..], sid);
      } else {
        GoneForGood(env, base, trans, next, actions[1..], sid);
        RunNothing(env, Step(env, w.sessions[sid], es[0]));
      }
      var later := EventsOf(env, base, trans, next, actions[1..], sid);
      if es == [] {
        assert es + later == later;
      } else {
        assert es + later == [es[0]] + later;
        RunFirst(env, w.sessions[sid], es[0], later);
      }
    }
  }

  /** Every session that a run of the loop accepts is a session machine: accepted on some descriptor, and then
      in the state that the completions handled for it lead to, or freed by them. */
  lemma {:induction false} SessionRuns<T>(env: Env<T>, base: int, trans: T, w: World<T>, actions: seq<Action>,
      sid: nat) returns (fd: nat)
    requires Numbered(w) && ValidActions(env, base, trans, w, actions)
    requires w.next <= sid < Execute(env, base, trans, w, actions).next
    ensures Reached(env, Accepted(fd, trans), EventsOf(env, base, trans, w, actions, sid),
                    Execute(env, base, trans, w, actions), sid)
    decreases |actions|
  {
    hide Enabled, Safe, Step, Deliverable, Accepted, HandleSession, Reached;
    var a := actions[0];
    var next := Next(env, base, trans, w, a);
    NumberedNext(env, base, trans, w, a);
    assert Handled(w, a, sid) == [] by { NotYetHandled(w, a, sid); }
    var later := EventsOf(env, base, trans, next, actions[1..], sid);
    assert [] + later == later;
    if sid < next.next {
      fd := AcceptedNow(env, base, trans, w, a, sid);
      SessionFollows(env, base, trans, next, actions[1..], sid);
    } else {
      fd := SessionRuns(env, base, trans, next, actions[1..], sid);
    }
  }

  lemma NotYetHandled<T>(w: World<T>, a: Action, sid: nat)
    requires Numbered(w) && Enabled(w, a) && (a.Handle? ==> Safe(w, w.cq[0])) && w.next <= sid
    ensures Handled(w, a, sid) == []
  {
    hide Deliverable;
  }

  lemma NumberedNext<T>(env: Env<T>, base: int, trans: T, w: World<T>, a: Action)
    requires Numbered(w) && Enabled(w, a) && (a.Handle? ==> Safe(w, w.cq[0]))
    ensures Numbered(Next(env, base, trans, w, a))
  {
    hide Step, Deliverable, NewSends, SessionEffects.ArmedSince;
  }

  lemma AcceptedNow<T>(env: Env<T>, base: int, trans: T, w: World<T>, a: Action, sid: nat) returns (fd: nat)
    requires Numbered(w) && Enabled(w, a) && (a.Handle? ==> Safe(w, w.cq[0]))
    requires w.next <= sid < Next(env, base, trans, w, a).next
    ensures var next := Next(env, base, trans, w, a);
            sid in next.sessions && next.sessions[sid] == Accepted(fd, trans)
  {
    hide Step, Deliverable, NewSends, SessionEffects.ArmedSince, Accepted;
    fd := w.cq[0].fd;
  }

  /** The replies of the whole server. Whatever the kernel and the other sessions do, what a session has
      submitted is a subsequence of the replies its own bytes call for, in request order; and exactly those
      if its completions were clean, its reads fitted its buffer, its replies fit and allocations succeed. */
  lemma ServerReplies<T(!new)>(env: Env<T>, base: int, trans: T, actions: seq<Action>, sid: nat)
    requires EnabledActions(env, base, trans, Initial(base), actions)
    ensures ValidActions(env, base, trans, Initial(base), actions)
    ensures var w, es := Execute(env, base, trans, Initial(base), actions),
                         EventsOf(env, base, trans, Initial(base), actions, sid);
            var called := StreamReplies(env, trans, Concat(ChunksOf(es)));
            sid in w.sessions ==>
              && Subsequence(Submits(w.sessions[sid].log), called)
              && (Clean(es) && Generous(env) && NeverOverflows(Server, [], ChunksOf(es)) &&
                  (forall r :: r in called ==> Fits(r)) ==>
                    Submits(w.sessions[sid].log) == called)
  {
    hide ValidActions, Execute, EventsOf, WorldInv, Subsequence, Submits, StreamReplies, Concat, ChunksOf, Clean, Run,
         ValidRun, NeverOverflows, Generous, Accepted, InitialRing;
    var start := Initial<T>(base);
    InitialInv<T>(base);
    EveryRunSafe(env, base, trans, start, actions);
    var w := Execute(env, base, trans, start, actions);
    var es := EventsOf(env, base, trans, start, actions, sid);
    if sid in w.sessions {
      InNumbers(base, w, sid);
      var fd := SessionRuns(env, base, trans, start, actions, sid);
      ReplyOrder(env, fd, trans, es);
      if Clean(es) && Generous(env) && NeverOverflows(Server, [], ChunksOf(es)) &&
         forall r :: r in StreamReplies(env, trans, Concat(ChunksOf(es))) ==> Fits(r) {
        ReplyStream(env, fd, trans, es);
      }
    }
  }

  lemma InNumbers<T>(base: int, w: World<T>, sid: nat)
    requires WorldInv(base, w) && sid in w.sessions
    ensures sid < w.next
  {
    hide Inv, ReceivesMatch, SendsMatch, BuffersConserved;
  }

  // ---------------------------------------------------------------- accepting

  /** An accept that succeeded, with memory for a session. */
  predicate Accepting<T>(w: World<T>, a: Action)
    requires Enabled(w, a)
  {
    a.Handle? && a.memory && w.cq[0].AcceptCqe? && w.cq[0].fd >= 0
  }

  /** It adds one session, under an address of its own: open, with nothing received and nothing in flight, and a
      receive armed on its descriptor. Nothing else adds one. */
  lemma AcceptAdds<T>(env: Env<T>, base: int, trans: T, w: World<T>, a: Action)
    requires Numbered(w) && Enabled(w, a) && (a.Handle? ==> Safe(w, w.cq[0]))
    ensures var next := Next(env, base, trans, w, a);
            if Accepting(w, a) then
              && next.next == w.next + 1 && w.next !in w.sessions && w.next in next.sessions && w.next in next.armed
              && (forall sid :: sid in w.sessions ==> sid in next.sessions && next.sessions[sid] == w.sessions[sid])
              && (var st := next.sessions[w.next];
                  && st.fd == w.cq[0].fd && st.log == [ArmRecv(w.cq[0].fd)] && !st.closing && st.recvActive
                  && st.assembled == [] && st.pending == 0 && st.trans == trans)
            else
              next.next == w.next && next.sessions.Keys <= w.sessions.Keys
  {
    hide Step, Deliverable, NewSends, SessionEffects.ArmedSince;
  }

  /** Over every run there have been as many sessions as successful accepts. */
  lemma {:induction false} SessionsAreAccepts<T>(env: Env<T>, base: int, trans: T, w: World<T>, actions: seq<Action>)
    requires Numbered(w) && ValidActions(env, base, trans, w, actions)
    ensures Execute(env, base, trans, w, actions).next == w.next + Accepts(env, base, trans, w, actions)
    decreases |actions|
  {
    hide Next, Enabled, Safe, Numbered, Accepting;
    if actions != [] {
      AcceptAdds(env, base, trans, w, actions[0]);
      NumberedNext(env, base, trans, w, actions[0]);
      SessionsAreAccepts(env, base, trans, Next(env, base, trans, w, actions[0]), actions[1..]);
    }
  }

  function Accepts<T>(env: Env<T>, base: int, trans: T, w: World<T>, actions: seq<Action>): nat
    requires ValidActions(env, base, trans, w, actions)
    decreases |actions|
  {
    if actions == [] then 0
    else (if Accepting(w, actions[0]) then 1 else 0) +
         Accepts(env, base, trans, Next(env, base, trans, w, actions[0]), actions[1..])
  }

  // ---------------------------------------------------------------- receiving

  /** The bytes in the buffers of the completions handled for a session. */
  function Received<T>(env: Env<T>, base: int, trans: T, w: World<T>, actions: seq<Action>, sid: nat): seq<byte>
    requires ValidActions(env, base, trans, w, actions)
    decreases |actions|
  {
    if actions == [] then []
    else ReceivedNow(w, actions[0], sid) +
         Received(env, base, trans, Next(env, base, trans, w, actions[0]), actions[1..], sid)
  }

  function ReceivedNow<T>(w: World<T>, a: Action, sid: nat): seq<byte>
    requires Enabled(w, a)
  {
    if a.Handle? && w.cq[0].ReadCqe? && w.cq[0].sid == sid && w.cq[0].res > 0 && w.cq[0].buffer.Some? then w.cq[0].data
    else []
  }

  /** They are the bytes that its run receives, none lost and none from another session. */
  lemma {:induction false} BytesArrive<T>(env: Env<T>, base: int, trans: T, w: World<T>, actions: seq<Action>, sid: nat)
    requires ValidActions(env, base, trans, w, actions)
    ensures Concat(ChunksOf(EventsOf(env, base, trans, w, actions, sid))) == Received(env, base, trans, w, actions, sid)
    decreases |actions|
  {
    hide Next, Enabled, Safe, Concat, Handled, ReceivedNow, ChunksOf;
    if actions == [] {
      EmptyRun([]);
    } else {
      var es := Handled(w, actions[0], sid);
      var later := EventsOf(env, base, trans, Next(env, base, trans, w, actions[0]), actions[1..], sid);
      BytesNow(w, actions[0], sid);
      BytesArrive(env, base, trans, Next(env, base, trans, w, actions[0]), actions[1..], sid);
      if es == [] {
        EmptyRun([]);
        assert es + later == later;
      } else {
        assert es == [es[0]] by { HandledOne(w, actions[0], sid); }
        assert (es + later)[0] == es[0] && (es + later)[1..] == later;
        ChunksStep(es + later);
      }
    }
  }

  lemma HandledOne<T>(w: World<T>, a: Action, sid: nat)
    requires Enabled(w, a)
    ensures |Handled(w, a, sid)| <= 1
  {
  }

  lemma BytesNow<T>(w: World<T>, a: Action, sid: nat)
    requires Enabled(w, a)
    ensures Concat(ChunksOf(Handled(w, a, sid))) == ReceivedNow(w, a, sid)
  {
    var es := Handled(w, a, sid);
    if es != [] {
      assert es[1..] == [];
      var chunks := ChunksOf(es);
      assert chunks == [] || (chunks == [chunks[0]] && chunks[1..] == []);
    }
  }
}
