/** Convergence of the NotificationConfiguration controller: which resources settle, how often
    each one calls SetBucketNotification on the way, and that settled resources stay settled. */
module NotificationQuiescence {
  import opened Outcomes
  import opened Sequences
  import opened Notification
  import opened NotificationRuns

  type Configs = map<string, Configuration>

  /** A turn of a live resource of a fleet, and how its three calls fare. */
  datatype Turn = Turn(who: nat, observe: Call, get: Call, put: Call) {
    /** Both reads are answered, and what it sends gets to the server. */
    predicate Effective() { observe.Served? && get.Served? && put.Applied() }
    function For(specs: seq<Spec>): Step
      requires who < |specs|
    {
      Step(specs[who], false, observe, get, put)
    }
  }

  /** Observe reports the resource present and up to date. */
  predicate Settled(configs: Configs, spec: Spec) {
    Observed(configs, spec, Served) == Ok(Observation(true, true))
  }

  /** Resources with a webhook, no two of them the same ID in one bucket. */
  ghost predicate Fleet(specs: seq<Spec>) {
    && (forall i :: 0 <= i < |specs| ==> specs[i].webhook.Some?)
    && (forall i, j :: 0 <= i < j < |specs| ==>
          specs[i].bucket != specs[j].bucket || specs[i].webhook.value.id != specs[j].webhook.value.id)
  }

  ghost predicate Names(specs: seq<Spec>, schedule: seq<Turn>) {
    forall k :: 0 <= k < |schedule| ==> schedule[k].who < |specs|
  }

  /** No turn writes after a failed read. */
  ghost predicate AllCareful(specs: seq<Spec>, schedule: seq<Turn>) {
    Names(specs, schedule) && forall k :: 0 <= k < |schedule| ==> Careful(schedule[k].For(specs))
  }

  function Play(configs: Configs, specs: seq<Spec>, schedule: seq<Turn>, blank: Option<Filter>): Configs
    requires Names(specs, schedule)
  {
    if schedule == [] then configs
    else
      Reconcile(Play(configs, specs, schedule[..|schedule| - 1], blank), schedule[|schedule| - 1].For(specs), blank)
  }

  /** The bucket is there, and Observe accepts what is written for the spec. */
  ghost predicate CanSettle(configs: Configs, spec: Spec, blank: Option<Filter>) {
    spec.bucket in configs && Settleable(spec, blank)
  }

  ghost function Stale(configs: Configs, specs: seq<Spec>): set<nat> {
    set i: nat | i < |specs| && !Settled(configs, specs[i])
  }

  /** Of resource i's turns: the effective ones, and those whose write does not get through. */
  function EffectiveTurns(schedule: seq<Turn>, i: nat): nat {
    if schedule == [] then 0
    else
      EffectiveTurns(schedule[..|schedule| - 1], i) +
      if schedule[|schedule| - 1].who == i && schedule[|schedule| - 1].Effective() then 1 else 0
  }

  function DroppedTurns(schedule: seq<Turn>, i: nat): nat {
    if schedule == [] then 0
    else
      DroppedTurns(schedule[..|schedule| - 1], i) +
      if schedule[|schedule| - 1].who == i && schedule[|schedule| - 1].put.Dropped? then 1 else 0
  }

  /** The calls of SetBucketNotification in resource i's turns, and those that get to the server. */
  function CallsBy(configs: Configs, specs: seq<Spec>, schedule: seq<Turn>, blank: Option<Filter>, i: nat): nat
    requires Names(specs, schedule)
  {
    if schedule == [] then 0
    else
      var init, last := schedule[..|schedule| - 1], schedule[|schedule| - 1];
      CallsBy(configs, specs, init, blank, i) +
      if last.who == i then Puts(Play(configs, specs, init, blank), last.For(specs)) else 0
  }

  function WritesBy(configs: Configs, specs: seq<Spec>, schedule: seq<Turn>, blank: Option<Filter>, i: nat): nat
    requires Names(specs, schedule)
  {
    if schedule == [] then 0
    else
      var init, last := schedule[..|schedule| - 1], schedule[|schedule| - 1];
      WritesBy(configs, specs, init, blank, i) +
      if last.who == i && last.put.Applied() then Puts(Play(configs, specs, init, blank), last.For(specs)) else 0
  }

  // ---------------------------------------------------------------- one turn

  /** A settled resource's turn changes nothing and calls SetBucketNotification never, however
      its calls fare. */
  lemma SettledTurnIsSilent(configs: Configs, specs: seq<Spec>, t: Turn, blank: Option<Filter>)
    requires t.who < |specs| && Settled(configs, specs[t.who])
    ensures Reconcile(configs, t.For(specs), blank) == configs
    ensures Puts(configs, t.For(specs)) == 0
  {
  }

  /** A careful turn gets a call of SetBucketNotification through exactly if it is effective and the
      resource was not settled; without one it changes nothing. */
  lemma WriteIff(configs: Configs, specs: seq<Spec>, t: Turn, blank: Option<Filter>)
    requires t.who < |specs| && Careful(t.For(specs)) && specs[t.who].webhook.Some?
    ensures Puts(configs, t.For(specs)) <= 1
    ensures Puts(configs, t.For(specs)) == 1 && t.put.Applied() <==> t.Effective() && !Settled(configs, specs[t.who])
    ensures !t.Effective() ==> Reconcile(configs, t.For(specs), blank) == configs
  {
  }

  /** An unsettled resource's effective turn settles it exactly when it can be settled. */
  lemma TurnSettlesIff(configs: Configs, specs: seq<Spec>, t: Turn, blank: Option<Filter>)
    requires t.who < |specs| && t.Effective() && specs[t.who].webhook.Some? && !Settled(configs, specs[t.who])
    ensures Settled(Reconcile(configs, t.For(specs), blank), specs[t.who]) <==> CanSettle(configs, specs[t.who], blank)
  {
    var spec := specs[t.who];
    if spec.bucket in configs {
      var w, c := spec.webhook.value, configs[spec.bucket];
      var entry := Render(spec, w, blank);
      RenderedArn(w.id);
      RenderedUpToDateIff(spec, w, blank);
      KeepSnoc(c.lambdas, entry, Matches(w));
      KeepSnoc(Erase(c.lambdas, ExpectedArn(w.id)), entry, Matches(w));
      NothingLeftOfArn(c, w);
    }
  }

  lemma NothingLeftOfArn(c: Configuration, w: Webhook)
    ensures First(Erase(c.lambdas, ExpectedArn(w.id)), Matches(w)).None?
  {
    KeepMembers(c.lambdas, Lacks(ExpectedArn(w.id)));
    FirstSound(Erase(c.lambdas, ExpectedArn(w.id)), Matches(w));
  }

  /** A careful step does not change whether another resource is settled. */
  lemma TurnLeavesOthers(configs: Configs, st: Step, other: Spec, blank: Option<Filter>)
    requires Careful(st) && st.spec.webhook.Some? && other.webhook.Some?
    requires st.spec.bucket != other.bucket || st.spec.webhook.value.id != other.webhook.value.id
    ensures Settled(Reconcile(configs, st, blank), other) == Settled(configs, other)
  {
    ReconcileIsAct(configs, st, blank);
    if st.spec.bucket == other.bucket && other.bucket in configs {
      var c, w, arn := configs[other.bucket], other.webhook.value, ExpectedArn(other.webhook.value.id);
      var after := Act(c, st, blank);
      ArnInjective(st.spec.webhook.value.id, w.id);
      ActUnseen(c, st, Only(arn), blank);
      FirstOfKeep(after.lambdas, Carries(arn), Matches(w));
      FirstOfKeep(c.lambdas, Carries(arn), Matches(w));
    }
  }

  // ---------------------------------------------------------------- whole schedules

  lemma {:induction false} PlayKeepsBuckets(configs: Configs, specs: seq<Spec>, schedule: seq<Turn>,
          blank: Option<Filter>)
    requires Names(specs, schedule)
    ensures Play(configs, specs, schedule, blank).Keys == configs.Keys
  {
    if schedule == [] {
    } else {
      PlayKeepsBuckets(configs, specs, schedule[..|schedule| - 1], blank);
    }
  }

  lemma StaleAfterTurn(configs: Configs, specs: seq<Spec>, t: Turn, blank: Option<Filter>)
    requires Fleet(specs) && t.who < |specs| && Careful(t.For(specs))
    ensures Stale(Reconcile(configs, t.For(specs), blank), specs) ==
            Stale(configs, specs) - (if t.Effective() && CanSettle(configs, specs[t.who], blank) then {t.who} else {})
  {
    var after := Reconcile(configs, t.For(specs), blank);
    forall i: nat | i < |specs|
      ensures i in Stale(after, specs) <==>
              i in Stale(configs, specs) && !(i == t.who && t.Effective() && CanSettle(configs, specs[i], blank))
    {
      if i != t.who {
        TurnLeavesOthers(configs, t.For(specs), specs[i], blank);
      } else if Settled(configs, specs[i]) {
        SettledTurnIsSilent(configs, specs, t, blank);
      } else if t.Effective() {
        TurnSettlesIff(configs, specs, t, blank);
      } else {
        WriteIff(configs, specs, t, blank);
      }
    }
  }

  /** After any schedule of careful turns, whichever of their calls fail, the unsettled resources are
      exactly those that were unsettled before and either had no effective turn or can never be
      settled. */
  lemma {:induction false} StaleAfter(configs: Configs, specs: seq<Spec>, schedule: seq<Turn>, blank: Option<Filter>)
    requires Fleet(specs) && AllCareful(specs, schedule)
    ensures Stale(Play(configs, specs, schedule, blank), specs) ==
            set i | i in Stale(configs, specs) &&
                    (EffectiveTurns(schedule, i) == 0 || !CanSettle(configs, specs[i], blank))
  {
    if schedule == [] {
    } else {
      var init, last := schedule[..|schedule| - 1], schedule[|schedule| - 1];
      StaleAfter(configs, specs, init, blank);
      PlayKeepsBuckets(configs, specs, init, blank);
      StaleAfterTurn(Play(configs, specs, init, blank), specs, last, blank);
    }
  }

  /** Writes that get through: one by a resource that was unsettled, can be settled and has an
      effective turn; one at every effective turn of an unsettled resource that cannot; no other. */
  lemma {:induction false} WritesExactly(configs: Configs, specs: seq<Spec>, schedule: seq<Turn>,
          blank: Option<Filter>, i: nat)
    requires Fleet(specs) && AllCareful(specs, schedule) && i < |specs|
    ensures WritesBy(configs, specs, schedule, blank, i) ==
            if i !in Stale(configs, specs) then 0
            else if CanSettle(configs, specs[i], blank) then (if EffectiveTurns(schedule, i) > 0 then 1 else 0)
            else EffectiveTurns(schedule, i)
  {
    if schedule == [] {
    } else {
      var init, last := schedule[..|schedule| - 1], schedule[|schedule| - 1];
      WritesExactly(configs, specs, init, blank, i);
      StaleAfter(configs, specs, init, blank);
      PlayKeepsBuckets(configs, specs, init, blank);
      var before := Play(configs, specs, init, blank);
      assert i in Stale(before, specs) <==> !Settled(before, specs[i]);
      WriteIff(before, specs, last, blank);
    }
  }

  /** Calls beyond those writes are made only at turns whose write does not get through, so none
      are if every write does. */
  lemma {:induction false} CallsBounded(configs: Configs, specs: seq<Spec>, schedule: seq<Turn>,
          blank: Option<Filter>, i: nat)
    requires Fleet(specs) && AllCareful(specs, schedule) && i < |specs|
    ensures var calls := CallsBy(configs, specs, schedule, blank, i);
            var writes := WritesBy(configs, specs, schedule, blank, i);
            && writes <= calls <= writes + DroppedTurns(schedule, i)
            && (i !in Stale(configs, specs) ==> calls == 0)
  {
    if schedule == [] {
    } else {
      var init, last := schedule[..|schedule| - 1], schedule[|schedule| - 1];
      CallsBounded(configs, specs, init, blank, i);
      StaleAfter(configs, specs, init, blank);
      PlayKeepsBuckets(configs, specs, init, blank);
      var before := Play(configs, specs, init, blank);
      assert i in Stale(before, specs) <==> !Settled(before, specs[i]);
      WriteIff(before, specs, last, blank);
      if last.who == i && Settled(before, specs[i]) { SettledTurnIsSilent(before, specs, last, blank); }
    }
  }

  /** A write of a resource that can be settled takes it, and nothing else, off the unsettled
      ones, so their number falls by one at every such write. */
  lemma {:induction false} EachWriteSettlesOne(configs: Configs, specs: seq<Spec>, t: Turn, blank: Option<Filter>)
    requires Fleet(specs) && t.who < |specs| && Careful(t.For(specs)) && CanSettle(configs, specs[t.who], blank)
    requires Puts(configs, t.For(specs)) == 1 && t.put.Applied()
    ensures var after := Reconcile(configs, t.For(specs), blank);
            && Stale(after, specs) == Stale(configs, specs) - {t.who}
            && |Stale(after, specs)| == |Stale(configs, specs)| - 1
  {
    WriteIff(configs, specs, t, blank);
    StaleAfterTurn(configs, specs, t, blank);
  }

  /** The schedule changes nothing on the server and calls SetBucketNotification never. */
  ghost predicate Silent(configs: Configs, specs: seq<Spec>, schedule: seq<Turn>, blank: Option<Filter>)
    requires Names(specs, schedule)
  {
    && Play(configs, specs, schedule, blank) == configs
    && forall i: nat :: CallsBy(configs, specs, schedule, blank, i) == 0
  }

  /** Once every resource has had an effective turn, among any careful ones, all are settled, and no
      further turn, in any order and however its calls fare, changes the server or calls
      SetBucketNotification: from any initial lists, exactly for fleets whose unsettled members
      can all be settled. */
  lemma QuiescenceIff(configs: Configs, specs: seq<Spec>, schedule: seq<Turn>, blank: Option<Filter>)
    requires Fleet(specs) && AllCareful(specs, schedule)
    requires forall i: nat :: i < |specs| ==> EffectiveTurns(schedule, i) > 0
    ensures var end := Play(configs, specs, schedule, blank);
            && (Stale(end, specs) == {} <==>
                  forall i :: i in Stale(configs, specs) ==> CanSettle(configs, specs[i], blank))
            && (Stale(end, specs) == {} ==>
                  forall more: seq<Turn> :: Names(specs, more) ==> Silent(end, specs, more, blank))
  {
    StaleAfter(configs, specs, schedule, blank);
    var end := Play(configs, specs, schedule, blank);
    var rest := set i | i in Stale(configs, specs) &&
                        (EffectiveTurns(schedule, i) == 0 || !CanSettle(configs, specs[i], blank));
    assert rest == {} <==> forall i :: i in Stale(configs, specs) ==> i !in rest;
    if Stale(end, specs) == {} {
      forall more: seq<Turn> | Names(specs, more) ensures Silent(end, specs, more, blank) {
        QuietForever(end, specs, more, blank);
      }
    }
  }

  lemma {:induction false} QuietForever(configs: Configs, specs: seq<Spec>, schedule: seq<Turn>, blank: Option<Filter>)
    requires Names(specs, schedule) && Stale(configs, specs) == {}
    ensures Silent(configs, specs, schedule, blank)
  {
    if schedule == [] {
    } else {
      var init, last := schedule[..|schedule| - 1], schedule[|schedule| - 1];
      QuietForever(configs, specs, init, blank);
      assert last.who !in Stale(configs, specs);
      SettledTurnIsSilent(configs, specs, last, blank);
    }
  }
}
