/**
 The "no gas" scope the lookup runs in. Opening the scope suspends gas
 charging and hands back a release action that restores what was in force
 before; scopes nest, so the state is the current charging flag plus a stack
 of the flags saved by the scopes still open. A lookup is observed as a trace
 of events, and `Replay` runs a trace against a metering state.
 */
module NoGas {
  import opened Types

  /** What the lookup does that matters to metering or to the outside world. */
  datatype Event =
    | StartNoGas                   // open the scope (`evm.StartNoGas()`)
    | ReleaseNoGas                 // run the release action it returned
    | CodeQuery(at: Address)       // `evm.ContractDeployed(at)`
    | StaticCall(req: CallRequest) // the one read-only call into the registry

  predicate IsScopeEvent(e: Event) {
    e.StartNoGas? || e.ReleaseNoGas?
  }

  /** A trace that neither opens nor releases a scope. */
  predicate ScopeFree(t: seq<Event>) {
    forall i :: 0 <= i < |t| ==> !IsScopeEvent(t[i])
  }

  /** Whether gas is charged right now, and the flags saved by enclosing open scopes. */
  datatype MeterState = MeterState(charged: bool, saved: seq<bool>)

  /**
   One event's effect; `None` when a release has no open scope to close.
   Opening saves the current flag and turns charging off; a release pops the
   most recently saved flag back, so it undoes exactly the latest open.
   */
  function Step(s: MeterState, e: Event): (r: Option<MeterState>)
    ensures e.StartNoGas? ==> r == Some(MeterState(false, s.saved + [s.charged]))
    ensures e.ReleaseNoGas? ==> (r.Some? <==> |s.saved| > 0)
    ensures e.ReleaseNoGas? && r.Some? ==>
      r.value.saved + [r.value.charged] == s.saved
    ensures !IsScopeEvent(e) ==> r == Some(s)
  {
    match e
    case StartNoGas => Some(MeterState(false, s.saved + [s.charged]))
    case ReleaseNoGas =>
      if |s.saved| == 0 then None
      else Some(MeterState(s.saved[|s.saved| - 1], s.saved[..|s.saved| - 1]))
    case _ => Some(s)
  }

  function Replay(s: MeterState, t: seq<Event>): Option<MeterState>
    decreases |t|
  {
    if |t| == 0 then Some(s)
    else
      match Step(s, t[0])
      case None => None
      case Some(s') => Replay(s', t[1..])
  }

  /** A release right after an open gives back the state before the open. */
  lemma ReleaseUndoesStart(s: MeterState)
    ensures Replay(s, [StartNoGas, ReleaseNoGas]) == Some(s)
  {
    assert [StartNoGas, ReleaseNoGas][1..] == [ReleaseNoGas];
    assert [ReleaseNoGas][1..] == [];
  }

  function Continue(r: Option<MeterState>, t: seq<Event>): Option<MeterState> {
    match r
    case None => None
    case Some(s) => Replay(s, t)
  }

  /** Replaying two traces one after the other is replaying their concatenation. */
  lemma {:induction false} ReplayAppend(s: MeterState, a: seq<Event>, b: seq<Event>)
    ensures Replay(s, a + b) == Continue(Replay(s, a), b)
    decreases |a|
  {
    if |a| == 0 {
      assert a + b == b;
    } else {
      assert (a + b)[0] == a[0];
      assert (a + b)[1..] == a[1..] + b;
      match Step(s, a[0])
      case None =>
      case Some(s') => ReplayAppend(s', a[1..], b);
    }
  }

  /** A trace leaves every metering state exactly as it found it. */
  ghost predicate Restores(t: seq<Event>) {
    forall s :: Replay(s, t) == Some(s)
  }

  /** Events that neither open nor release a scope do not touch metering. */
  lemma {:induction false} ScopeFreeReplay(s: MeterState, t: seq<Event>)
    requires ScopeFree(t)
    ensures Replay(s, t) == Some(s)
    decreases |t|
  {
    if |t| > 0 {
      assert !IsScopeEvent(t[0]);
      assert ScopeFree(t[1..]) by {
        forall i | 0 <= i < |t[1..]| ensures !IsScopeEvent(t[1..][i]) {
          assert t[1..][i] == t[i + 1];
        }
      }
      ScopeFreeReplay(s, t[1..]);
    }
  }

  /**
   The deferred-release pattern: open the scope first, run the body, run the
   release last on the way out, whatever the body returned. The result leaves
   metering as it found it whenever the body opens and releases nothing, or
   whenever the body itself restores metering (a nested scope).
   */
  function WithNoGas(body: seq<Event>): (t: seq<Event>)
    ensures |t| == |body| + 2
    ensures t[0] == StartNoGas && t[|t| - 1] == ReleaseNoGas
    ensures forall i :: 0 <= i < |body| ==> t[i + 1] == body[i]
    ensures ScopeFree(body) ==> Restores(t)
    ensures Restores(body) ==> Restores(t)
  {
    assert ScopeFree(body) ==> Restores([StartNoGas] + body + [ReleaseNoGas]) by {
      if ScopeFree(body) {
        ScopedBodyRestores(body);
      }
    }
    assert Restores(body) ==> Restores([StartNoGas] + body + [ReleaseNoGas]) by {
      if Restores(body) {
        NestedRestores(body);
      }
    }
    [StartNoGas] + body + [ReleaseNoGas]
  }

  /**
   A scope wrapped around a body that restores metering restores metering
   itself, and while the body runs gas is not charged and the prior flag
   sits on top of the saved stack.
   */
  lemma {:induction false} WithNoGasRestores(s: MeterState, body: seq<Event>)
    requires Replay(MeterState(false, s.saved + [s.charged]), body)
      == Some(MeterState(false, s.saved + [s.charged]))
    ensures Replay(s, [StartNoGas] + body + [ReleaseNoGas]) == Some(s)
  {
    var inner := MeterState(false, s.saved + [s.charged]);
    assert [StartNoGas] + body + [ReleaseNoGas] == [StartNoGas] + (body + [ReleaseNoGas]);
    ReplayAppend(s, [StartNoGas], body + [ReleaseNoGas]);
    assert Replay(s, [StartNoGas]) == Some(inner) by {
      assert [StartNoGas][1..] == [];
    }
    ReplayAppend(inner, body, [ReleaseNoGas]);
    assert Replay(inner, [ReleaseNoGas]) == Some(s) by {
      assert [ReleaseNoGas][1..] == [];
      assert inner.saved[..|inner.saved| - 1] == s.saved;
    }
  }

  /** Opening, working without scope events, and releasing restores every metering state. */
  lemma ScopedBodyRestores(body: seq<Event>)
    requires ScopeFree(body)
    ensures Restores([StartNoGas] + body + [ReleaseNoGas])
  {
    forall s ensures Replay(s, [StartNoGas] + body + [ReleaseNoGas]) == Some(s) {
      ScopeFreeReplay(MeterState(false, s.saved + [s.charged]), body);
      WithNoGasRestores(s, body);
    }
  }

  /**
   Every event of a scope-free body runs uncharged: the prefix up to and
   including body event `k` leaves gas off with the caller's flag saved.
   */
  lemma ScopedBodyUncharged(s: MeterState, body: seq<Event>, k: nat)
    requires ScopeFree(body)
    requires k < |body|
    ensures Replay(s, ([StartNoGas] + body + [ReleaseNoGas])[..k + 2])
      == Some(MeterState(false, s.saved + [s.charged]))
  {
    var inner := MeterState(false, s.saved + [s.charged]);
    assert ([StartNoGas] + body + [ReleaseNoGas])[..k + 2] == [StartNoGas] + body[..k + 1];
    ReplayAppend(s, [StartNoGas], body[..k + 1]);
    assert Replay(s, [StartNoGas]) == Some(inner) by {
      assert [StartNoGas][1..] == [];
    }
    var done := body[..k + 1];
    assert ScopeFree(done) by {
      forall i | 0 <= i < |done| ensures !IsScopeEvent(done[i]) {
        assert done[i] == body[i];
      }
    }
    ScopeFreeReplay(inner, done);
  }

  /** Scopes used one after another compose: two restoring traces in sequence restore. */
  lemma SequenceRestores(a: seq<Event>, b: seq<Event>)
    requires Restores(a) && Restores(b)
    ensures Restores(a + b)
  {
    forall s ensures Replay(s, a + b) == Some(s) {
      ReplayAppend(s, a, b);
    }
  }

  /** A restoring trace run inside an enclosing scope leaves the enclosing scope balanced too. */
  lemma NestedRestores(t: seq<Event>)
    requires Restores(t)
    ensures Restores([StartNoGas] + t + [ReleaseNoGas])
  {
    forall s ensures Replay(s, [StartNoGas] + t + [ReleaseNoGas]) == Some(s) {
      var inner := MeterState(false, s.saved + [s.charged]);
      assert Replay(inner, t) == Some(inner);
      WithNoGasRestores(s, t);
    }
  }
}
