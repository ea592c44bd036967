/** Whole runs of the NotificationConfiguration controller: any number of resources, reconciled
    one at a time in any order, with API calls that may fail at any point. */
module NotificationRuns {
  import opened Outcomes
  import opened Sequences
  import opened Notification

  /** One pass of the managed reconciler over one resource: Observe; then, if the resource is
      being deleted, Delete when it exists; otherwise Create, Update or nothing. */
  datatype Step = Step(spec: Spec, deleting: bool, observe: Call, get: Call, put: Call) {
    predicate On(bucket: string) { spec.bucket == bucket }
    predicate Of(bucket: string, id: string) {
      On(bucket) && spec.webhook.Some? && spec.webhook.value.id == id
    }
  }

  function Reconcile(configs: map<string, Configuration>, st: Step, blank: Option<Filter>): map<string, Configuration> {
    match Observed(configs, st.spec, st.observe)
    case Err(_) => configs
    case Ok(seen) =>
      if st.deleting then
        if seen.present then AfterDelete(configs, st.spec, st.get, st.put).0 else configs
      else if !seen.present then AfterCreate(configs, st.spec, blank, st.get, st.put).0
      else if !seen.upToDate then AfterUpdate(configs, st.spec, blank, st.get, st.put).0
      else configs
  }

  function Run(configs: map<string, Configuration>, steps: seq<Step>,
          blank: Option<Filter>): map<string, Configuration> {
    if steps == [] then configs
    else Reconcile(Run(configs, steps[..|steps| - 1], blank), steps[|steps| - 1], blank)
  }

  /** How many calls of SetBucketNotification it makes. */
  function Puts(configs: map<string, Configuration>, st: Step): nat {
    match Observed(configs, st.spec, st.observe)
    case Err(_) => 0
    case Ok(seen) =>
      if st.deleting then if seen.present then RewritePuts(configs, st.spec, st.get) else 0
      else if !seen.present then CreatePuts(configs, st.spec, st.get)
      else if !seen.upToDate then RewritePuts(configs, st.spec, st.get)
      else 0
  }

  /** The client's methods, driven by the managed reconciler, do exactly this. */
  method ReconcileOnce(client: NotificationClient, st: Step) returns (r: Result<()>)
    modifies client.mc
    ensures client.mc.configs == Reconcile(old(client.mc.configs), st, client.blank)
    ensures client.mc.puts == old(client.mc.puts) + Puts(old(client.mc.configs), st)
  {
    var seen := client.Observe(st.spec, st.observe);
    if seen.Err? { return Err(seen.error); }
    r := Ok(());
    if st.deleting {
      if seen.value.present { r := client.Delete(st.spec, st.get, st.put); }
    } else if !seen.value.present {
      r := client.Create(st.spec, st.get, st.put);
    } else if !seen.value.upToDate {
      r := client.Update(st.spec, st.get, st.put);
    }
  }

  // ---------------------------------------------------------------- one bucket at a time

  /** What one step does to the configuration of the bucket it names. */
  function Act(c: Configuration, st: Step, blank: Option<Filter>): Configuration {
    if st.spec.webhook.None? || !st.observe.Served? || st.put.Dropped? then c
    else
      var w := st.spec.webhook.value;
      var hit := First(c.lambdas, Matches(w));
      if hit.None? then
        if st.deleting then c
        else Created(if st.get.Served? then c else Configuration([], []), st.spec, w, blank)
      else if !st.get.Served? then c
      else if st.deleting then Deleted(c, w)
      else if UpToDate(st.spec, w, hit.value) then c
      else Updated(c, st.spec, w, blank)
  }

  lemma ReconcileIsAct(configs: map<string, Configuration>, st: Step, blank: Option<Filter>)
    ensures Reconcile(configs, st, blank) ==
            if st.spec.bucket in configs then configs[st.spec.bucket := Act(configs[st.spec.bucket], st, blank)]
            else configs
  {
    if st.spec.bucket in configs {
      var c := configs[st.spec.bucket];
      assert configs == configs[st.spec.bucket := c];
      if st.spec.webhook.Some? {
        assert First<Lambda>([], Matches(st.spec.webhook.value)).None?;
      }
    }
  }

  /** A bucket's configuration after the steps that name it; other steps leave it alone. */
  function RunOn(c: Configuration, bucket: string, steps: seq<Step>, blank: Option<Filter>): Configuration {
    if steps == [] then c
    else
      var before := RunOn(c, bucket, steps[..|steps| - 1], blank);
      var st := steps[|steps| - 1];
      if st.On(bucket) then Act(before, st, blank) else before
  }

  lemma RunOnSnoc(c: Configuration, bucket: string, steps: seq<Step>, st: Step, blank: Option<Filter>)
    ensures RunOn(c, bucket, steps + [st], blank) ==
            if st.On(bucket) then Act(RunOn(c, bucket, steps, blank), st, blank) else RunOn(c, bucket, steps, blank)
  {
    assert (steps + [st])[..|steps|] == steps;
  }

  lemma {:induction false} RunByBucket(configs: map<string, Configuration>, steps: seq<Step>, blank: Option<Filter>)
    ensures Run(configs, steps, blank) == map b | b in configs :: RunOn(configs[b], b, steps, blank)
  {
    if steps == [] {
    } else {
      RunByBucket(configs, steps[..|steps| - 1], blank);
      ReconcileIsAct(Run(configs, steps[..|steps| - 1], blank), steps[|steps| - 1], blank);
    }
  }

  // ---------------------------------------------------------------- seeing part of the list

  /** Either every entry but those of one ARN, or only those. */
  datatype View = Except(arn: string) | Only(arn: string) {
    predicate Sees(text: string) { if Except? then text != arn else text == arn }
    function Filter(): Lambda -> bool { if Except? then Lacks(arn) else Carries(arn) }
    function Of(c: Configuration): Configuration { c.(lambdas := Keep(c.lambdas, Filter())) }
  }

  /** The step does not write from the empty list that a Create takes after a failed read. */
  predicate Careful(st: Step) { st.get.Served? || st.deleting || st.put.Dropped? }

  lemma RenderCarriesArn(spec: Spec, w: Webhook, blank: Option<Filter>, arn: string)
    ensures Carries(arn)(Render(spec, w, blank)) <==> arn == ExpectedArn(w.id)
    ensures Lacks(arn)(Render(spec, w, blank)) <==> arn != ExpectedArn(w.id)
  {
    RenderedArn(w.id);
  }

  /** The three writes commute with a view that sees the webhook's ARN. */
  lemma WritesSeen(c: Configuration, spec: Spec, w: Webhook, v: View, blank: Option<Filter>)
    requires v.Sees(ExpectedArn(w.id))
    ensures v.Of(Created(c, spec, w, blank)) == Created(v.Of(c), spec, w, blank)
    ensures v.Of(Updated(c, spec, w, blank)) == Updated(v.Of(c), spec, w, blank)
    ensures v.Of(Deleted(c, w)) == Deleted(v.Of(c), w)
  {
    var entry := Render(spec, w, blank);
    RenderCarriesArn(spec, w, blank, v.arn);
    KeepSnoc(c.lambdas, entry, v.Filter());
    KeepSnoc(Erase(c.lambdas, ExpectedArn(w.id)), entry, v.Filter());
    KeepCommutes(c.lambdas, Lacks(ExpectedArn(w.id)), v.Filter());
    KeepCommutes(c.lambdas, Differs(w), v.Filter());
  }

  /** They do not show in a view that does not see it. */
  lemma WritesUnseen(c: Configuration, spec: Spec, w: Webhook, v: View, blank: Option<Filter>)
    requires !v.Sees(ExpectedArn(w.id))
    ensures v.Of(Created(c, spec, w, blank)) == v.Of(c)
    ensures v.Of(Updated(c, spec, w, blank)) == v.Of(c)
    ensures v.Of(Deleted(c, w)) == v.Of(c)
  {
    var entry := Render(spec, w, blank);
    RenderCarriesArn(spec, w, blank, v.arn);
    KeepSnoc(c.lambdas, entry, v.Filter());
    KeepSnoc(Erase(c.lambdas, ExpectedArn(w.id)), entry, v.Filter());
    FilterUnseen(c.lambdas, Lacks(ExpectedArn(w.id)), v.Filter());
    FilterUnseen(c.lambdas, Differs(w), v.Filter());
  }

  /** A step commutes with a view that sees its ARN, even one that starts from an empty list. */
  lemma {:induction false} ActSeen(c: Configuration, st: Step, v: View, blank: Option<Filter>)
    requires st.spec.webhook.Some? ==> v.Sees(ExpectedArn(st.spec.webhook.value.id))
    ensures v.Of(Act(c, st, blank)) == Act(v.Of(c), st, blank)
  {
    if st.spec.webhook.Some? {
      var (w, empty) := (st.spec.webhook.value, Configuration([], []));
      FirstOfKeep(c.lambdas, v.Filter(), Matches(w));
      if First(c.lambdas, Matches(w)).None? && !st.get.Served? {
        assert v.Of(empty) == empty;
        WritesSeen(empty, st.spec, w, v, blank);
      } else {
        WritesSeen(c, st.spec, w, v, blank);
      }
    }
  }

  /** A step does not show in a view that does not see its ARN. */
  lemma {:induction false} ActUnseen(c: Configuration, st: Step, v: View, blank: Option<Filter>)
    requires Careful(st) && st.spec.webhook.Some? && !v.Sees(ExpectedArn(st.spec.webhook.value.id))
    ensures v.Of(Act(c, st, blank)) == v.Of(c)
  {
    WritesUnseen(c, st.spec, st.spec.webhook.value, v, blank);
  }

  /** The steps of a schedule that a view of one bucket keeps: those that are not a hidden
      resource's. */
  function Visible(bucket: string, id: string, v: View): Step -> bool {
    (st: Step) => !st.On(bucket) || st.spec.webhook.None? || (st.spec.webhook.value.id == id <==> v.Only?)
  }

  lemma {:induction false} RunSeen(c: Configuration, bucket: string, steps: seq<Step>, id: string, v: View,
          blank: Option<Filter>)
    requires v.arn == ExpectedArn(id)
    requires forall st :: st in steps && !Visible(bucket, id, v)(st) ==> Careful(st)
    ensures v.Of(RunOn(c, bucket, steps, blank)) == RunOn(v.Of(c), bucket, Keep(steps, Visible(bucket, id, v)), blank)
  {
    if steps == [] {
    } else {
      var init, st := steps[..|steps| - 1], steps[|steps| - 1];
      RunSeen(c, bucket, init, id, v, blank);
      var before := RunOn(c, bucket, init, blank);
      RunOnSnoc(v.Of(c), bucket, Keep(init, Visible(bucket, id, v)), st, blank);
      if st.On(bucket) {
        if st.spec.webhook.Some? { ArnInjective(st.spec.webhook.value.id, id); }
        if Visible(bucket, id, v)(st) {
          ActSeen(before, st, v, blank);
        } else {
          ActUnseen(before, st, v, blank);
        }
      }
    }
  }

  // ---------------------------------------------------------------- non-interference

  /** The server without the entries that carry a webhook ID's ARN in one bucket. */
  function EraseIn(configs: map<string, Configuration>, bucket: string, id: string): map<string, Configuration> {
    map b | b in configs ::
      if b == bucket then configs[b].(lambdas := Erase(configs[b].lambdas, ExpectedArn(id))) else configs[b]
  }

  function WithoutSteps(steps: seq<Step>, bucket: string, id: string): seq<Step> {
    Keep(steps, (st: Step) => !st.Of(bucket, id))
  }

  function StepsOf(steps: seq<Step>, bucket: string, id: string): seq<Step> {
    Keep(steps, (st: Step) => st.Of(bucket, id))
  }

  /** Erasing one resource from the final server is running everyone else without it. The steps
      may carry changing specs, may delete, their calls may fail, and those of the others may start
      from an empty list; only the resource left out does not write after a failed read. */
  lemma {:induction false} NonInterference(configs: map<string, Configuration>, steps: seq<Step>, bucket: string,
          id: string, blank: Option<Filter>)
    requires forall st :: st in steps && st.Of(bucket, id) ==> Careful(st)
    ensures EraseIn(Run(configs, steps, blank), bucket, id) ==
            Run(EraseIn(configs, bucket, id), WithoutSteps(steps, bucket, id), blank)
  {
    var v := Except(ExpectedArn(id));
    var fewer := WithoutSteps(steps, bucket, id);
    RunByBucket(configs, steps, blank);
    RunByBucket(EraseIn(configs, bucket, id), fewer, blank);
    KeepAgree(steps, (st: Step) => !st.Of(bucket, id), Visible(bucket, id, v));
    forall b | b in configs
      ensures EraseIn(Run(configs, steps, blank), bucket, id)[b] ==
              RunOn(EraseIn(configs, bucket, id)[b], b, fewer, blank)
    {
      if b == bucket {
        RunSeen(configs[b], b, steps, id, v, blank);
        assert v.Of(RunOn(configs[b], b, steps, blank)) == RunOn(v.Of(configs[b]), b, fewer, blank);
      } else {
        OtherBucketSteps(configs[b], b, steps, bucket, id, blank);
      }
    }
  }

  lemma {:induction false} OtherBucketSteps(c: Configuration, b: string, steps: seq<Step>, bucket: string,
          id: string, blank: Option<Filter>)
    requires b != bucket
    ensures RunOn(c, b, WithoutSteps(steps, bucket, id), blank) == RunOn(c, b, steps, blank)
  {
    if steps == [] {
    } else {
      var init, st := steps[..|steps| - 1], steps[|steps| - 1];
      OtherBucketSteps(c, b, init, bucket, id, blank);
      var p := (s: Step) => !s.Of(bucket, id);
      KeepAgree(init, p, (s: Step) => !s.Of(bucket, id));
      KeepAgree(steps, p, (s: Step) => !s.Of(bucket, id));
      RunOnSnoc(c, b, Keep(init, p), st, blank);
    }
  }

  /** A step that takes the start-from-empty branch and gets its write through. */
  predicate Clobbers(c: Configuration, st: Step) {
    && st.spec.webhook.Some? && !st.deleting
    && st.observe.Served? && !st.get.Served? && st.put.Applied()
    && First(c.lambdas, Matches(st.spec.webhook.value)).None?
  }

  /** One step leaves everyone else's entries as they were, exactly unless it clobbers them. */
  lemma ClobberIff(c: Configuration, st: Step, blank: Option<Filter>)
    requires st.spec.webhook.Some?
    ensures var arn := ExpectedArn(st.spec.webhook.value.id);
            var after := Act(c, st, blank);
            (Erase(after.lambdas, arn) == Erase(c.lambdas, arn) && after.others == c.others)
            <==> (!Clobbers(c, st) || (Erase(c.lambdas, arn) == [] && c.others == []))
  {
    var w := st.spec.webhook.value;
    var arn := ExpectedArn(w.id);
    if Clobbers(c, st) {
      RenderCarriesArn(st.spec, w, blank, arn);
      KeepSnoc([], Render(st.spec, w, blank), Lacks(arn));
      assert Act(c, st, blank).lambdas == [] + [Render(st.spec, w, blank)];
    } else if Careful(st) {
      ActUnseen(c, st, Except(arn), blank);
    }
  }

  // ---------------------------------------------------------------- schedule independence

  lemma OwnProjection(c: Configuration, bucket: string, steps: seq<Step>, id: string, blank: Option<Filter>)
    requires forall st :: st in steps ==> Careful(st)
    ensures ProjectArn(RunOn(c, bucket, steps, blank).lambdas, ExpectedArn(id)) ==
            RunOn(Only(ExpectedArn(id)).Of(c), bucket, StepsOf(steps, bucket, id), blank).lambdas
  {
    var v := Only(ExpectedArn(id));
    RunSeen(c, bucket, steps, id, v, blank);
    OnlyOwnSteps(v.Of(c), bucket, steps, id, blank);
  }

  lemma {:induction false} OnlyOwnSteps(c: Configuration, bucket: string, steps: seq<Step>, id: string,
          blank: Option<Filter>)
    ensures RunOn(c, bucket, Keep(steps, Visible(bucket, id, Only(ExpectedArn(id)))), blank) ==
            RunOn(c, bucket, StepsOf(steps, bucket, id), blank)
  {
    if steps == [] {
    } else {
      var init, st := steps[..|steps| - 1], steps[|steps| - 1];
      OnlyOwnSteps(c, bucket, init, id, blank);
      var own := (s: Step) => s.Of(bucket, id);
      KeepAgree(init, own, (s: Step) => s.Of(bucket, id));
      KeepAgree(steps, own, (s: Step) => s.Of(bucket, id));
      RunOnSnoc(c, bucket, Keep(init, Visible(bucket, id, Only(ExpectedArn(id)))), st, blank);
      RunOnSnoc(c, bucket, Keep(init, own), st, blank);
    }
  }

  lemma {:induction false} OthersUntouched(c: Configuration, bucket: string, steps: seq<Step>, blank: Option<Filter>)
    requires forall st :: st in steps ==> Careful(st)
    ensures RunOn(c, bucket, steps, blank).others == c.others
  {
    if steps == [] {
    } else {
      OthersUntouched(c, bucket, steps[..|steps| - 1], blank);
      assert Careful(steps[|steps| - 1]);
    }
  }

  /** ARN texts that no webhook ID renders to are never written or removed. */
  lemma {:induction false} UnownedUntouched(c: Configuration, bucket: string, steps: seq<Step>, arn: string,
          blank: Option<Filter>)
    requires forall st :: st in steps ==> Careful(st)
    requires forall id :: arn != ExpectedArn(id)
    ensures ProjectArn(RunOn(c, bucket, steps, blank).lambdas, arn) == ProjectArn(c.lambdas, arn)
  {
    if steps == [] {
    } else {
      var init, st := steps[..|steps| - 1], steps[|steps| - 1];
      UnownedUntouched(c, bucket, init, arn, blank);
      if st.spec.webhook.Some? {
        ActUnseen(RunOn(c, bucket, init, blank), st, Only(arn), blank);
      }
    }
  }

  lemma SameProjectionsSameEntries(a: seq<Lambda>, b: seq<Lambda>)
    requires forall arn :: ProjectArn(a, arn) == ProjectArn(b, arn)
    ensures multiset(a) == multiset(b)
  {
    forall l ensures multiset(a)[l] == multiset(b)[l] {
      var arn := l.arn.Text();
      assert ProjectArn(a, arn) == ProjectArn(b, arn);
      KeepCount(a, Carries(arn), l);
      KeepCount(b, Carries(arn), l);
    }
  }

  ghost predicate SamePerArn(a: Configuration, b: Configuration) {
    && a.others == b.others
    && multiset(a.lambdas) == multiset(b.lambdas)
    && forall arn :: ProjectArn(a.lambdas, arn) == ProjectArn(b.lambdas, arn)
  }

  lemma {:induction false} BucketScheduleIndependence(c: Configuration, b: string, one: seq<Step>, two: seq<Step>,
          blank: Option<Filter>)
    requires forall st :: st in one ==> Careful(st)
    requires forall st :: st in two ==> Careful(st)
    requires forall id :: StepsOf(one, b, id) == StepsOf(two, b, id)
    ensures SamePerArn(RunOn(c, b, one, blank), RunOn(c, b, two, blank))
  {
    OthersUntouched(c, b, one, blank);
    OthersUntouched(c, b, two, blank);
    forall arn
      ensures ProjectArn(RunOn(c, b, one, blank).lambdas, arn) == ProjectArn(RunOn(c, b, two, blank).lambdas, arn)
    {
      if id :| arn == ExpectedArn(id) {
        OwnProjection(c, b, one, id, blank);
        OwnProjection(c, b, two, id, blank);
        assert StepsOf(one, b, id) == StepsOf(two, b, id);
      } else {
        UnownedUntouched(c, b, one, arn, blank);
        UnownedUntouched(c, b, two, arn, blank);
      }
    }
    SameProjectionsSameEntries(RunOn(c, b, one, blank).lambdas, RunOn(c, b, two, blank).lambdas);
  }

  /** Two interleavings of the same per-resource step sequences end with the same entries in
      every bucket, and with the same ordered list for every ARN. */
  lemma {:induction false} ScheduleIndependence(configs: map<string, Configuration>, one: seq<Step>,
          two: seq<Step>, blank: Option<Filter>)
    requires forall st :: st in one ==> Careful(st)
    requires forall st :: st in two ==> Careful(st)
    requires forall bucket, id :: StepsOf(one, bucket, id) == StepsOf(two, bucket, id)
    ensures var (end1, end2) := (Run(configs, one, blank), Run(configs, two, blank));
            && end1.Keys == end2.Keys == configs.Keys
            && forall b :: b in configs ==> SamePerArn(end1[b], end2[b])
  {
    RunByBucket(configs, one, blank);
    RunByBucket(configs, two, blank);
    forall b | b in configs ensures SamePerArn(Run(configs, one, blank)[b], Run(configs, two, blank)[b]) {
      BucketScheduleIndependence(configs[b], b, one, two, blank);
    }
  }

  // ---------------------------------------------------------------- install and uninstall

  function UpdateAll(c: Configuration, specs: seq<Spec>, w: Webhook, blank: Option<Filter>): Configuration {
    if specs == [] then c
    else Updated(UpdateAll(c, specs[..|specs| - 1], w, blank), specs[|specs| - 1], w, blank)
  }

  lemma {:induction false} UpdateAllLeaves(c: Configuration, specs: seq<Spec>, w: Webhook, blank: Option<Filter>)
    requires specs != []
    ensures UpdateAll(c, specs, w, blank) == Updated(c, specs[|specs| - 1], w, blank)
  {
    var init := specs[..|specs| - 1];
    if init == [] {
    } else {
      UpdateAllLeaves(c, init, w, blank);
      var arn, entry := ExpectedArn(w.id), Render(init[|init| - 1], w, blank);
      RenderCarriesArn(init[|init| - 1], w, blank, arn);
      KeepSnoc(Erase(c.lambdas, arn), entry, Lacks(arn));
      FilterUnseen(c.lambdas, Lacks(arn), Lacks(arn));
    }
  }

  lemma NoEntryYet(c: Configuration, w: Webhook)
    requires ProjectArn(c.lambdas, ExpectedArn(w.id)) == []
    ensures Erase(c.lambdas, ExpectedArn(w.id)) == c.lambdas
    ensures Keep(c.lambdas, Differs(w)) == c.lambdas
    ensures First(c.lambdas, Matches(w)).None?
  {
    var arn := ExpectedArn(w.id);
    KeepMembers(c.lambdas, Carries(arn));
    forall l | l in c.lambdas ensures !Carries(arn)(l) {
      assert l in ProjectArn(c.lambdas, arn) <==> l in c.lambdas && Carries(arn)(l);
    }
    KeepAll(c.lambdas, Lacks(arn));
    KeepAll(c.lambdas, Differs(w));
    FirstSound(c.lambdas, Matches(w));
  }

  /** Create and any number of Updates with changing events and filters add the last rendered entry
      at the end, and Delete gives back the list as it was, in order. */
  lemma {:induction false} UpdatesLeaveOneEntry(c: Configuration, w: Webhook, first: Spec, updates: seq<Spec>,
          blank: Option<Filter>)
    requires ProjectArn(c.lambdas, ExpectedArn(w.id)) == []
    ensures var installed := UpdateAll(Created(c, first, w, blank), updates, w, blank);
            && Deleted(installed, w) == c
            && First(c.lambdas, Matches(w)).None?
            && First(installed.lambdas, Matches(w)) ==
                 Some(Render(if updates == [] then first else updates[|updates| - 1], w, blank))
  {
    var arn := ExpectedArn(w.id);
    NoEntryYet(c, w);
    var last := if updates == [] then first else updates[|updates| - 1];
    if updates != [] {
      UpdateAllLeaves(Created(c, first, w, blank), updates, w, blank);
      RenderCarriesArn(first, w, blank, arn);
      KeepSnoc(c.lambdas, Render(first, w, blank), Lacks(arn));
    }
    RenderedArn(w.id);
    KeepSnoc(c.lambdas, Render(last, w, blank), Differs(w));
    KeepSnoc(c.lambdas, Render(last, w, blank), Matches(w));
  }

  /** Under the webhook's ARN there is no entry, or one that was rendered for this webhook. */
  ghost predicate OneOwnEntry(c: Configuration, w: Webhook, blank: Option<Filter>) {
    var own := ProjectArn(c.lambdas, ExpectedArn(w.id));
    own == [] || exists spec :: own == [Render(spec, w, blank)]
  }

  /** The step of a resource on a list that holds its own entries only. */
  lemma OwnListAlone(c: Configuration, st: Step, w: Webhook, blank: Option<Filter>)
    requires c.lambdas == [] || exists spec :: c.lambdas == [Render(spec, w, blank)]
    requires st.spec.webhook == Some(w) && Careful(st)
    ensures var own := Act(c, st, blank).lambdas;
            && (own == [] || exists spec :: own == [Render(spec, w, blank)])
            && (st.deleting && st.observe.Served? && st.get.Served? && st.put.Applied() ==> own == [])
  {
    var entry := Render(st.spec, w, blank);
    RenderedArn(w.id);
    if c.lambdas == [] {
      assert Act(c, st, blank).lambdas in {[], [] + [entry]};
    } else {
      var before :| c.lambdas == [Render(before, w, blank)];
      KeepSnoc([], c.lambdas[0], Matches(w));
      KeepSnoc([], c.lambdas[0], Differs(w));
      KeepSnoc([], c.lambdas[0], Lacks(ExpectedArn(w.id)));
      assert c.lambdas == [] + [c.lambdas[0]];
      assert Act(c, st, blank).lambdas in {[], c.lambdas, [] + [entry]};
    }
  }

  /** Another resource's step keeps this one's entries, or drops them all. */
  lemma {:induction false} OtherStepKeepsOwn(c: Configuration, st: Step, w: Webhook, blank: Option<Filter>)
    requires st.spec.webhook.None? || st.spec.webhook.value.id != w.id
    ensures ProjectArn(Act(c, st, blank).lambdas, ExpectedArn(w.id)) in {[], ProjectArn(c.lambdas, ExpectedArn(w.id))}
  {
    var v := Only(ExpectedArn(w.id));
    if st.spec.webhook.Some? {
      ArnInjective(st.spec.webhook.value.id, w.id);
      WritesUnseen(c, st.spec, st.spec.webhook.value, v, blank);
      WritesUnseen(Configuration([], []), st.spec, st.spec.webhook.value, v, blank);
      var (spec, other, empty) := (st.spec, st.spec.webhook.value, Configuration([], []));
      assert Act(c, st, blank) in {c, Created(c, spec, other, blank), Created(empty, spec, other, blank),
                                   Updated(c, spec, other, blank), Deleted(c, other)};
      assert v.Of(empty).lambdas == [];
    }
  }

  /** A careful step of this one leaves none or one, and a deletion that goes through none. */
  lemma {:induction false} OwnStepKeepsOwn(c: Configuration, st: Step, w: Webhook, blank: Option<Filter>)
    requires OneOwnEntry(c, w, blank) && st.spec.webhook == Some(w) && Careful(st)
    ensures OneOwnEntry(Act(c, st, blank), w, blank)
    ensures st.deleting && st.observe.Served? && st.get.Served? && st.put.Applied() ==>
              ProjectArn(Act(c, st, blank).lambdas, ExpectedArn(w.id)) == []
  {
    var v := Only(ExpectedArn(w.id));
    ActSeen(c, st, v, blank);
    OwnListAlone(v.Of(c), st, w, blank);
  }

  lemma {:induction false} RunKeepsOneOwnEntry(c: Configuration, bucket: string, steps: seq<Step>, w: Webhook,
          blank: Option<Filter>)
    requires OneOwnEntry(c, w, blank)
    requires forall st :: st in steps && st.Of(bucket, w.id) ==> st.spec.webhook == Some(w) && Careful(st)
    ensures OneOwnEntry(RunOn(c, bucket, steps, blank), w, blank)
  {
    if steps == [] {
    } else {
      var init, st := steps[..|steps| - 1], steps[|steps| - 1];
      RunKeepsOneOwnEntry(c, bucket, init, w, blank);
      if st.Of(bucket, w.id) {
        OwnStepKeepsOwn(RunOn(c, bucket, init, blank), st, w, blank);
      } else if st.On(bucket) {
        OtherStepKeepsOwn(RunOn(c, bucket, init, blank), st, w, blank);
      }
    }
  }

  lemma {:induction false} OthersMakeNoOwnEntry(c: Configuration, bucket: string, steps: seq<Step>, w: Webhook,
          blank: Option<Filter>)
    requires ProjectArn(c.lambdas, ExpectedArn(w.id)) == []
    requires forall st :: st in steps ==> !st.Of(bucket, w.id)
    ensures ProjectArn(RunOn(c, bucket, steps, blank).lambdas, ExpectedArn(w.id)) == []
  {
    if steps == [] {
    } else {
      var init, st := steps[..|steps| - 1], steps[|steps| - 1];
      OthersMakeNoOwnEntry(c, bucket, init, w, blank);
      assert !st.Of(bucket, w.id);
      if st.On(bucket) { OtherStepKeepsOwn(RunOn(c, bucket, init, blank), st, w, blank); }
    }
  }

  lemma {:induction false} RunOnConcat(c: Configuration, bucket: string, one: seq<Step>, two: seq<Step>,
          blank: Option<Filter>)
    ensures RunOn(c, bucket, one + two, blank) == RunOn(RunOn(c, bucket, one, blank), bucket, two, blank)
  {
    if two == [] {
      assert one + two == one;
    } else {
      var init, st := two[..|two| - 1], two[|two| - 1];
      RunOnConcat(c, bucket, one, init, blank);
      assert one + two == (one + init) + [st];
      RunOnSnoc(c, bucket, one + init, st, blank);
    }
  }

  /** Install and uninstall, in the middle of whatever the others do: after any careful reconciles
      of a resource with a fixed ID and endpoint and changing events and filters, and a deletion
      that goes through, the server is what it would be had the resource never been there, and
      the resource is reported absent. */
  lemma {:induction false} InstallUninstall(configs: map<string, Configuration>, before: seq<Step>, last: Step,
          after: seq<Step>, w: Webhook, blank: Option<Filter>)
    requires var bucket := last.spec.bucket;
             && bucket in configs && ProjectArn(configs[bucket].lambdas, ExpectedArn(w.id)) == []
             && (forall st :: st in before && st.Of(bucket, w.id) ==> st.spec.webhook == Some(w) && Careful(st))
             && (forall st :: st in after ==> !st.Of(bucket, w.id))
    requires last.spec.webhook == Some(w) && last.deleting
    requires last.observe.Served? && last.get.Served? && last.put.Applied()
    ensures var steps := before + [last] + after;
            && Run(configs, steps, blank) == Run(configs, WithoutSteps(steps, last.spec.bucket, w.id), blank)
            && Observed(Run(configs, steps, blank), last.spec, Served) == Ok(Observation(false, false))
  {
    var bucket, steps := last.spec.bucket, before + [last] + after;
    var end := Run(configs, steps, blank);
    NonInterference(configs, steps, bucket, w.id, blank);
    RunByBucket(configs, steps, blank);
    var c1 := RunOn(configs[bucket], bucket, before, blank);
    RunKeepsOneOwnEntry(configs[bucket], bucket, before, w, blank);
    OwnStepKeepsOwn(c1, last, w, blank);
    RunOnSnoc(configs[bucket], bucket, before, last, blank);
    RunOnConcat(configs[bucket], bucket, before + [last], after, blank);
    OthersMakeNoOwnEntry(Act(c1, last, blank), bucket, after, w, blank);
    NoEntryYet(configs[bucket], w);
    NoEntryYet(end[bucket], w);
    assert EraseIn(configs, bucket, w.id) == configs;
    assert EraseIn(end, bucket, w.id) == end;
  }

  /** An effective step that finds its entry out of date leaves one entry under the ARN, the
      rendered one, and nothing else changed. */
  lemma {:induction false} UpdateStepReplacesArn(configs: map<string, Configuration>, st: Step, blank: Option<Filter>)
    requires st.spec.webhook.Some? && st.spec.bucket in configs && !st.deleting
    requires Observed(configs, st.spec, st.observe) == Ok(Observation(true, false))
    requires st.get.Served? && st.put.Applied()
    ensures var (bucket, arn) := (st.spec.bucket, ExpectedArn(st.spec.webhook.value.id));
            var after := Reconcile(configs, st, blank);
            && after.Keys == configs.Keys && after - {bucket} == configs - {bucket}
            && after[bucket].others == configs[bucket].others
            && ProjectArn(after[bucket].lambdas, arn) == [Render(st.spec, st.spec.webhook.value, blank)]
            && Erase(after[bucket].lambdas, arn) == Erase(configs[bucket].lambdas, arn)
  {
    RewriteEffects(configs, st.spec, blank, st.get, st.put);
  }

  /** A deletion that finds its entry and goes through clears the whole ARN exactly when every
      entry of it points at the current endpoint. */
  lemma DeleteClearsArnIff(c: Configuration, w: Webhook)
    ensures ProjectArn(Deleted(c, w).lambdas, ExpectedArn(w.id)) == [] <==>
            forall l :: l in c.lambdas && l.arn.Text() == ExpectedArn(w.id) ==> l.endpoint == w.endpoint
  {
    var arn := ExpectedArn(w.id);
    DeletedLeavesOtherEndpoints(c, w);
    KeepMembers(c.lambdas, Carries(arn));
    KeepMembers(ProjectArn(c.lambdas, arn), Differs(w));
    if ProjectArn(Deleted(c, w).lambdas, arn) == [] {
      forall l | l in c.lambdas && l.arn.Text() == arn ensures l.endpoint == w.endpoint {
        assert l in Keep(ProjectArn(c.lambdas, arn), Differs(w)) <==> l in ProjectArn(c.lambdas, arn) && Differs(w)(l);
      }
    } else {
      assert Keep(ProjectArn(c.lambdas, arn), Differs(w))[0] in Keep(ProjectArn(c.lambdas, arn), Differs(w));
    }
  }

  /** Moving a resource to a new endpoint and deleting it leaves its first entry behind. */
  lemma EndpointChangeLeavesEntry(c: Configuration, before: Spec, after: Spec, w1: Webhook, w2: Webhook,
          blank: Option<Filter>)
    requires before.webhook == Some(w1) && after.webhook == Some(w2)
    requires w1.id == w2.id && w1.endpoint != w2.endpoint
    requires ProjectArn(c.lambdas, ExpectedArn(w1.id)) == []
    ensures var c1 := Act(c, Step(before, false, Served, Served, Served), blank);
            var c2 := Act(c1, Step(after, false, Served, Served, Served), blank);
            && First(c2.lambdas, Matches(w2)).Some?
            && Act(c2, Step(after, true, Served, Served, Served), blank) == Created(c, before, w1, blank)
  {
    var old', new' := Render(before, w1, blank), Render(after, w2, blank);
    RenderedArn(w1.id);
    NoEntryYet(c, w1);
    NoEntryYet(c, w2);
    var c1 := Created(c, before, w1, blank);
    assert Act(c, Step(before, false, Served, Served, Served), blank) == c1;
    KeepSnoc(c.lambdas, old', Matches(w2));
    KeepSnoc(c.lambdas, old', Differs(w2));
    var c2 := Created(c1, after, w2, blank);
    assert Act(c1, Step(after, false, Served, Served, Served), blank) == c2;
    KeepSnoc(c1.lambdas, new', Matches(w2));
    KeepSnoc(c1.lambdas, new', Differs(w2));
    assert Deleted(c2, w2) == c1;
  }
}
