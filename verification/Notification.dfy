/** The NotificationConfiguration controller: several resources each own the entries of one
    bucket's lambda list that carry their ARN. The client's methods work on the server step by
    step, as the source does; the functions say what they leave behind. */
module Notification {
  import opened Outcomes
  import opened Sequences

  // ---------------------------------------------------------------- data

  datatype Arn = Arn(partition: string, service: string, region: string, account: string, resource: string) {
    function Text(): string {
      "arn:" + partition + ":" + service + ":" + region + ":" + account + ":" + resource
    }
  }

  datatype Rule = Rule(name: string, value: string)

  /** `rules` is None for Go's nil slice. */
  datatype Filter = Filter(rules: Option<seq<Rule>>)

  datatype Lambda = Lambda(id: string, arn: Arn, endpoint: string, events: seq<string>, filter: Option<Filter>)

  /** A bucket's notification configuration; `others` stands for its queue and topic entries. */
  datatype Configuration = Configuration(lambdas: seq<Lambda>, others: seq<string>)

  datatype Webhook = Webhook(id: string, endpoint: string)
  datatype KeyFilter = KeyFilter(rules: seq<Rule>)
  datatype NotificationFilter = NotificationFilter(key: Option<KeyFilter>)
  datatype Spec = Spec(
    bucket: string, webhook: Option<Webhook>, events: seq<string>, filter: Option<NotificationFilter>)
  {
    predicate WantsRules() { filter.Some? && filter.value.key.Some? }
  }

  // ---------------------------------------------------------------- one resource's entries

  function ExpectedArn(id: string): string { "arn:minio:sqs::" + id + ":webhook" }

  function NewArn(id: string): Arn { Arn("minio", "sqs", "", id, "webhook") }

  /** Entries that carry an ARN, wherever they point. */
  function Carries(arn: string): Lambda -> bool { (l: Lambda) => l.arn.Text() == arn }
  function Lacks(arn: string): Lambda -> bool { (l: Lambda) => l.arn.Text() != arn }

  /** Entries that carry the webhook's ARN and also point at its endpoint. */
  function Matches(w: Webhook): Lambda -> bool {
    (l: Lambda) => l.arn.Text() == ExpectedArn(w.id) && l.endpoint == w.endpoint
  }
  function Differs(w: Webhook): Lambda -> bool {
    (l: Lambda) => l.arn.Text() != ExpectedArn(w.id) || l.endpoint != w.endpoint
  }

  /** The list without an ARN's entries, and those entries alone, both in order. */
  function Erase(ls: seq<Lambda>, arn: string): seq<Lambda> { Keep(ls, Lacks(arn)) }
  function ProjectArn(ls: seq<Lambda>, arn: string): seq<Lambda> { Keep(ls, Carries(arn)) }

  /** The entry written for a spec. `blank` is the filter that the client library leaves on a
      new Config before the spec's rules are put there, as it reads back from the server. */
  function Render(spec: Spec, w: Webhook, blank: Option<Filter>): Lambda {
    Lambda("", NewArn(w.id), w.endpoint, spec.events,
           if spec.WantsRules() then Some(Filter(Some(spec.filter.value.key.value.rules))) else blank)
  }

  predicate FilterMatches(spec: Spec, filter: Option<Filter>) {
    if spec.WantsRules() then
      filter.Some? && filter.value.rules == Some(spec.filter.value.key.value.rules)
    else
      filter.None?
  }

  /** Observe's comparison: as many events as the spec has distinct ones, and only those. */
  predicate UpToDate(spec: Spec, w: Webhook, l: Lambda) {
    && l.endpoint == w.endpoint
    && |l.events| == |set e | e in spec.events|
    && (forall e :: e in l.events ==> e in spec.events)
    && FilterMatches(spec, l.filter)
  }

  // ---------------------------------------------------------------- the server

  function Get(configs: map<string, Configuration>, bucket: string, call: Call): Result<Configuration> {
    if !call.Served? then Err(Transient)
    else if bucket in configs then Ok(configs[bucket]) else Err(NotFound)
  }

  function Set(configs: map<string, Configuration>, bucket: string, config: Configuration, call: Call)
    : (map<string, Configuration>, Result<()>)
  {
    (if bucket in configs && call.Applied() then configs[bucket := config] else configs,
     if !call.Served? then Err(Transient) else if bucket in configs then Ok(()) else Err(NotFound))
  }

  /** The server stores what it is sent; creating and removing buckets is not its part here. `puts`
      counts the calls of SetBucketNotification, whatever becomes of them. */
  class NotificationServer {
    var configs: map<string, Configuration>
    var puts: nat

    method GetBucketNotification(bucket: string, call: Call) returns (r: Result<Configuration>)
      ensures r == Get(configs, bucket, call)
    {
      if call != Served { return Err(Transient); }
      if bucket !in configs { return Err(NotFound); }
      return Ok(configs[bucket]);
    }

    method SetBucketNotification(bucket: string, config: Configuration, call: Call) returns (r: Result<()>)
      modifies this
      ensures (configs, r) == Set(old(configs), bucket, config, call)
      ensures puts == old(puts) + 1
    {
      puts := puts + 1;
      var known := bucket in configs;
      if known && call != Dropped { configs := configs[bucket := config]; }
      if call != Served { return Err(Transient); }
      return if known then Ok(()) else Err(NotFound);
    }
  }

  // ---------------------------------------------------------------- what each method does

  function Observed(configs: map<string, Configuration>, spec: Spec, get: Call): Result<Observation> {
    match Get(configs, spec.bucket, get)
    case Err(NotFound) => Ok(Observation(false, false))
    case Err(e) => Err(e)
    case Ok(config) =>
      if spec.webhook.None? then Ok(Observation(false, false))
      else
        var w := spec.webhook.value;
        match First(config.lambdas, Matches(w))
        case None => Ok(Observation(false, false))
        case Some(l) => Ok(Observation(true, UpToDate(spec, w, l)))
  }

  function Created(config: Configuration, spec: Spec, w: Webhook, blank: Option<Filter>): Configuration {
    config.(lambdas := config.lambdas + [Render(spec, w, blank)])
  }

  function Updated(config: Configuration, spec: Spec, w: Webhook, blank: Option<Filter>): Configuration {
    config.(lambdas := Erase(config.lambdas, ExpectedArn(w.id)) + [Render(spec, w, blank)])
  }

  function Deleted(config: Configuration, w: Webhook): Configuration {
    config.(lambdas := Keep(config.lambdas, Differs(w)))
  }

  function AfterCreate(configs: map<string, Configuration>, spec: Spec, blank: Option<Filter>, get: Call, put: Call)
    : (map<string, Configuration>, Result<()>)
  {
    if spec.webhook.None? then (configs, Err(Invalid))
    else
      var w := spec.webhook.value;
      var read := Get(configs, spec.bucket, get);
      // A failed read starts from an empty configuration.
      var config := if read.Ok? then read.value else Configuration([], []);
      if First(config.lambdas, Matches(w)).Some? then (configs, Ok(()))
      else Set(configs, spec.bucket, Created(config, spec, w, blank), put)
  }

  function AfterUpdate(configs: map<string, Configuration>, spec: Spec, blank: Option<Filter>, get: Call, put: Call)
    : (map<string, Configuration>, Result<()>)
  {
    if spec.webhook.None? then (configs, Ok(()))
    else
      var w := spec.webhook.value;
      match Get(configs, spec.bucket, get)
      case Err(e) => (configs, Err(e))
      case Ok(config) => Set(configs, spec.bucket, Updated(config, spec, w, blank), put)
  }

  function AfterDelete(configs: map<string, Configuration>, spec: Spec, get: Call, put: Call)
    : (map<string, Configuration>, Result<()>)
  {
    if spec.webhook.None? then (configs, Ok(()))
    else
      var w := spec.webhook.value;
      match Get(configs, spec.bucket, get)
      case Err(NotFound) => (configs, Ok(()))
      case Err(e) => (configs, Err(e))
      case Ok(config) =>
        var (after, written) := Set(configs, spec.bucket, Deleted(config, w), put);
        (after, if written == Err(NotFound) then Ok(()) else written)
  }

  /** How many calls of SetBucketNotification each of them makes. */
  function CreatePuts(configs: map<string, Configuration>, spec: Spec, get: Call): nat {
    if spec.webhook.None? then 0
    else
      var read := Get(configs, spec.bucket, get);
      if read.Ok? && First(read.value.lambdas, Matches(spec.webhook.value)).Some? then 0 else 1
  }

  function RewritePuts(configs: map<string, Configuration>, spec: Spec, get: Call): nat {
    if spec.webhook.Some? && Get(configs, spec.bucket, get).Ok? then 1 else 0
  }

  // ---------------------------------------------------------------- the client

  class NotificationClient {
    const mc: NotificationServer
    const blank: Option<Filter>

    constructor (mc: NotificationServer, blank: Option<Filter>)
      ensures this.mc == mc && this.blank == blank
    {
      this.mc, this.blank := mc, blank;
    }

    method FindWebhookConfiguration(spec: Spec, config: Configuration) returns (found: Option<Lambda>)
      ensures found == if spec.webhook.None? then None else First(config.lambdas, Matches(spec.webhook.value))
    {
      if spec.webhook.None? { return None; }
      var w := spec.webhook.value;
      var expectedArn := ExpectedArn(w.id);
      for i := 0 to |config.lambdas|
        invariant First(config.lambdas[..i], Matches(w)).None?
      {
        var lambda := config.lambdas[i];
        KeepSnoc(config.lambdas[..i], lambda, Matches(w));
        assert config.lambdas[..i + 1] == config.lambdas[..i] + [lambda];
        if lambda.arn.Text() == expectedArn && lambda.endpoint == w.endpoint {
          FirstStays(config.lambdas, i + 1, Matches(w));
          return Some(lambda);
        }
      }
      assert config.lambdas[..|config.lambdas|] == config.lambdas;
      return None;
    }

    method IsConfigurationUpToDate(spec: Spec, lambda: Lambda) returns (latest: bool)
      ensures latest <==> spec.webhook.Some? && UpToDate(spec, spec.webhook.value, lambda)
    {
      if spec.webhook.None? { return false; }
      if lambda.endpoint != spec.webhook.value.endpoint { return false; }

      var specEvents: set<string> := {};
      for i := 0 to |spec.events|
        invariant specEvents == set e | e in spec.events[..i]
      {
        specEvents := specEvents + {spec.events[i]};
        assert spec.events[..i + 1] == spec.events[..i] + [spec.events[i]];
      }
      assert spec.events[..|spec.events|] == spec.events;
      if |lambda.events| != |specEvents| { return false; }
      for i := 0 to |lambda.events|
        invariant forall j :: 0 <= j < i ==> lambda.events[j] in spec.events
      {
        if lambda.events[i] !in specEvents { return false; }
      }

      if spec.WantsRules() {
        if lambda.filter.None? || lambda.filter.value.rules.None? { return false; }
        var rules, wanted := lambda.filter.value.rules.value, spec.filter.value.key.value.rules;
        if |rules| != |wanted| { return false; }
        for i := 0 to |wanted|
          invariant rules[..i] == wanted[..i]
        {
          if rules[i].name != wanted[i].name || rules[i].value != wanted[i].value { return false; }
          assert rules[..i + 1] == rules[..i] + [rules[i]];
          assert wanted[..i + 1] == wanted[..i] + [wanted[i]];
        }
        assert rules[..|wanted|] == rules && wanted[..|wanted|] == wanted;
      } else if lambda.filter.Some? {
        return false;
      }
      return true;
    }

    method Observe(spec: Spec, get: Call) returns (r: Result<Observation>)
      ensures r == Observed(mc.configs, spec, get)
    {
      var read := mc.GetBucketNotification(spec.bucket, get);
      if read.Err? {
        if read.error == NotFound { return Ok(Observation(false, false)); }
        return Err(read.error);
      }
      var found := FindWebhookConfiguration(spec, read.value);
      if found.None? { return Ok(Observation(false, false)); }
      var latest := IsConfigurationUpToDate(spec, found.value);
      return Ok(Observation(true, latest));
    }

    /** The entry for the spec, its events and rules appended one by one. */
    method BuildLambda(spec: Spec, w: Webhook) returns (lambda: Lambda)
      ensures lambda == Render(spec, w, blank)
    {
      lambda := Lambda("", NewArn(w.id), w.endpoint, [], blank);
      for i := 0 to |spec.events|
        invariant lambda == Lambda("", NewArn(w.id), w.endpoint, spec.events[..i], blank)
      {
        lambda := lambda.(events := lambda.events + [spec.events[i]]);
        assert spec.events[..i + 1] == spec.events[..i] + [spec.events[i]];
      }
      assert spec.events[..|spec.events|] == spec.events;
      if spec.WantsRules() {
        var rules: seq<Rule> := [];
        var wanted := spec.filter.value.key.value.rules;
        for i := 0 to |wanted|
          invariant rules == wanted[..i]
        {
          rules := rules + [Rule(wanted[i].name, wanted[i].value)];
        }
        assert wanted[..|wanted|] == wanted;
        lambda := lambda.(filter := Some(Filter(Some(rules))));
      }
    }

    method Create(spec: Spec, get: Call, put: Call) returns (r: Result<()>)
      modifies mc
      ensures (mc.configs, r) == AfterCreate(old(mc.configs), spec, blank, get, put)
      ensures mc.puts == old(mc.puts) + CreatePuts(old(mc.configs), spec, get)
    {
      if spec.webhook.None? { return Err(Invalid); }
      var w := spec.webhook.value;
      var read := mc.GetBucketNotification(spec.bucket, get);
      var config := Configuration([], []);
      if read.Ok? { config := read.value; }

      var existing := FindWebhookConfiguration(spec, config);
      if existing.Some? { return Ok(()); }

      var lambda := BuildLambda(spec, w);
      config := config.(lambdas := config.lambdas + [lambda]);
      r := mc.SetBucketNotification(spec.bucket, config, put);
    }

    method Update(spec: Spec, get: Call, put: Call) returns (r: Result<()>)
      modifies mc
      ensures (mc.configs, r) == AfterUpdate(old(mc.configs), spec, blank, get, put)
      ensures mc.puts == old(mc.puts) + RewritePuts(old(mc.configs), spec, get)
    {
      if spec.webhook.None? { return Ok(()); }
      var w := spec.webhook.value;
      var read := mc.GetBucketNotification(spec.bucket, get);
      if read.Err? { return Err(read.error); }
      var config := read.value;

      var oldArn := ExpectedArn(w.id);
      var filtered: seq<Lambda> := [];
      for i := 0 to |config.lambdas|
        invariant filtered == Erase(config.lambdas[..i], oldArn)
        invariant mc.configs == old(mc.configs) && mc.puts == old(mc.puts)
      {
        KeepSnoc(config.lambdas[..i], config.lambdas[i], Lacks(oldArn));
        assert config.lambdas[..i + 1] == config.lambdas[..i] + [config.lambdas[i]];
        if config.lambdas[i].arn.Text() != oldArn {
          filtered := filtered + [config.lambdas[i]];
        }
      }
      assert config.lambdas[..|config.lambdas|] == config.lambdas;
      config := config.(lambdas := filtered);

      var lambda := BuildLambda(spec, w);
      config := config.(lambdas := config.lambdas + [lambda]);
      r := mc.SetBucketNotification(spec.bucket, config, put);
    }

    method Delete(spec: Spec, get: Call, put: Call) returns (r: Result<()>)
      modifies mc
      ensures (mc.configs, r) == AfterDelete(old(mc.configs), spec, get, put)
      ensures mc.puts == old(mc.puts) + RewritePuts(old(mc.configs), spec, get)
    {
      if spec.webhook.None? { return Ok(()); }
      var w := spec.webhook.value;
      var read := mc.GetBucketNotification(spec.bucket, get);
      if read.Err? {
        if read.error == NotFound { return Ok(()); }
        return Err(read.error);
      }
      var config := read.value;

      var expectedArn := ExpectedArn(w.id);
      var filtered: seq<Lambda> := [];
      for i := 0 to |config.lambdas|
        invariant filtered == Keep(config.lambdas[..i], Differs(w))
        invariant mc.configs == old(mc.configs) && mc.puts == old(mc.puts)
      {
        KeepSnoc(config.lambdas[..i], config.lambdas[i], Differs(w));
        assert config.lambdas[..i + 1] == config.lambdas[..i] + [config.lambdas[i]];
        if config.lambdas[i].arn.Text() != expectedArn || config.lambdas[i].endpoint != w.endpoint {
          filtered := filtered + [config.lambdas[i]];
        }
      }
      assert config.lambdas[..|config.lambdas|] == config.lambdas;
      config := config.(lambdas := filtered);
      r := mc.SetBucketNotification(spec.bucket, config, put);
      if r == Err(NotFound) { r := Ok(()); }
    }
  }

  /** Once a prefix holds a match, reading on does not change the first match. */
  lemma {:induction false} FirstStays(s: seq<Lambda>, n: nat, p: Lambda -> bool)
    requires n <= |s| && First(s[..n], p).Some?
    ensures First(s, p) == First(s[..n], p)
  {
    if n < |s| {
      var init := s[..|s| - 1];
      assert init[..n] == s[..n];
      FirstStays(init, n, p);
    } else {
      assert s[..n] == s;
    }
  }

  // ---------------------------------------------------------------- ARNs

  /** The ARN that Create and Update store is the one that every search looks for. */
  lemma RenderedArn(id: string)
    ensures NewArn(id).Text() == ExpectedArn(id)
  {
    assert "arn:" + "minio" + ":" + "sqs" + ":" + "" + ":" == "arn:minio:sqs::";
    assert ":" + "webhook" == ":webhook";
    assert NewArn(id).Text() == ("arn:" + "minio" + ":" + "sqs" + ":" + "" + ":") + id + (":" + "webhook");
  }

  /** Resources with different webhook IDs own different entries. */
  lemma ArnInjective(id1: string, id2: string)
    ensures ExpectedArn(id1) == ExpectedArn(id2) <==> id1 == id2
  {
    var prefix, suffix := "arn:minio:sqs::", ":webhook";
    var a1, a2 := ExpectedArn(id1), ExpectedArn(id2);
    assert a1[|prefix|..|a1| - |suffix|] == id1;
    assert a2[|prefix|..|a2| - |suffix|] == id2;
  }

  // ---------------------------------------------------------------- what the methods answer

  ghost predicate HasEntry(configs: map<string, Configuration>, spec: Spec)
    requires spec.webhook.Some?
  {
    var w := spec.webhook.value;
    && spec.bucket in configs
    && exists l :: && l in configs[spec.bucket].lambdas
                   && l.arn.Text() == "arn:minio:sqs::" + w.id + ":webhook" && l.endpoint == w.endpoint
  }

  /** The filter that a spec asks for: its rules as one key filter, or none. */
  ghost predicate FilterOf(spec: Spec, filter: Option<Filter>, otherwise: Option<Filter>) {
    match spec.filter
    case Some(NotificationFilter(Some(KeyFilter(rules)))) => filter == Some(Filter(Some(rules)))
    case _ => filter == otherwise
  }

  /** What an entry must be for Observe to leave it alone. */
  ghost predicate Current(spec: Spec, l: Lambda) {
    && spec.webhook.Some? && l.endpoint == spec.webhook.value.endpoint
    && (forall e :: e in l.events ==> e in spec.events)
    && |l.events| == |set e | e in spec.events|
    && FilterOf(spec, l.filter, None)
  }

  /** Observe errs exactly on an unanswered read, reports absent exactly if the bucket, the webhook
      or an entry is missing, and otherwise judges the earliest entry. */
  lemma ObserveAnswers(configs: map<string, Configuration>, spec: Spec, get: Call)
    ensures var r := Observed(configs, spec, get);
            && (r.Err? <==> !get.Served?) && (r.Err? ==> r.error == Transient)
            && (r == Ok(Observation(false, false)) <==>
                get.Served? && (spec.webhook.Some? ==> !HasEntry(configs, spec)))
            && (r.Ok? && r.value.present ==>
                  var (ls, w) := (configs[spec.bucket].lambdas, spec.webhook.value);
                  exists i :: && 0 <= i < |ls| && (r.value.upToDate <==> Current(spec, ls[i]))
                              && Matches(w)(ls[i]) && forall j :: 0 <= j < i ==> !Matches(w)(ls[j]))
  {
    if get.Served? && spec.bucket in configs && spec.webhook.Some? {
      var (ls, w) := (configs[spec.bucket].lambdas, spec.webhook.value);
      FirstSound(ls, Matches(w));
      if First(ls, Matches(w)).Some? {
        var i := FirstIsEarliest(ls, Matches(w));
        assert ls[i] in ls && Matches(w)(ls[i]);
        assert UpToDate(spec, w, ls[i]) <==> Current(spec, ls[i]);
      }
    }
  }

  /** The entry that is written: the webhook's ARN and endpoint, the spec's events, its rules. */
  lemma RenderedEntry(spec: Spec, w: Webhook, blank: Option<Filter>)
    ensures var l := Render(spec, w, blank);
            && l.arn.Text() == "arn:minio:sqs::" + w.id + ":webhook" && l.endpoint == w.endpoint
            && l.id == "" && l.events == spec.events && FilterOf(spec, l.filter, blank)
  {
    RenderedArn(w.id);
  }

  /** Create completes exactly if there is a webhook and a bucket, and the entry is found or the write
      is answered; it writes exactly if it does not find the entry, on the list it read or, after
      an unanswered read, on an empty one. */
  lemma CreateAnswers(configs: map<string, Configuration>, spec: Spec, blank: Option<Filter>, get: Call, put: Call)
    ensures var (after, r) := AfterCreate(configs, spec, blank, get, put);
            var found := spec.webhook.Some? && get.Served? && HasEntry(configs, spec);
            && (r.Ok? <==> spec.webhook.Some? && spec.bucket in configs && (found || put.Served?))
            && (r.Err? ==>
                  r.error == if spec.webhook.None? then Invalid else if !put.Served? then Transient else NotFound)
            && (spec.webhook.None? || found || spec.bucket !in configs || put.Dropped? ==> after == configs)
            && (spec.webhook.Some? && !found && spec.bucket in configs && put.Applied() ==>
                  && after.Keys == configs.Keys && after - {spec.bucket} == configs - {spec.bucket}
                  && after[spec.bucket] ==
                       var old' := if get.Served? then configs[spec.bucket] else Configuration([], []);
                       Configuration(old'.lambdas + [Render(spec, spec.webhook.value, blank)], old'.others))
  {
    if spec.webhook.Some? {
      if spec.bucket in configs { FirstSound(configs[spec.bucket].lambdas, Matches(spec.webhook.value)); }
      assert First<Lambda>([], Matches(spec.webhook.value)).None?;
    }
  }

  /** Update completes exactly without a webhook or if the bucket is there and both calls are
      answered; Delete also if the bucket is missing. */
  lemma RewriteAnswers(configs: map<string, Configuration>, spec: Spec, blank: Option<Filter>, get: Call, put: Call)
    ensures var r := AfterUpdate(configs, spec, blank, get, put).1;
            && (r.Ok? <==> spec.webhook.None? || (get.Served? && put.Served? && spec.bucket in configs))
            && (r.Err? ==> r.error == if get.Served? && spec.bucket !in configs then NotFound else Transient)
    ensures var r := AfterDelete(configs, spec, get, put).1;
            && (r.Ok? <==> spec.webhook.None? || (get.Served? && (put.Served? || spec.bucket !in configs)))
            && (r.Err? ==> r.error == Transient)
  {
  }

  lemma FilterUnseen(ls: seq<Lambda>, kept: Lambda -> bool, seen: Lambda -> bool)
    requires forall l :: seen(l) ==> kept(l)
    ensures Keep(Keep(ls, kept), seen) == Keep(ls, seen)
  {
    KeepCommutes(ls, kept, seen);
    KeepMembers(ls, seen);
    KeepAll(Keep(ls, seen), kept);
  }

  /** Update leaves one entry under the ARN, the rendered one, whatever endpoints the old ones had,
      and every other entry in its order. */
  lemma UpdatedReplacesArn(c: Configuration, spec: Spec, w: Webhook, blank: Option<Filter>)
    ensures var (after, arn) := (Updated(c, spec, w, blank), ExpectedArn(w.id));
            && ProjectArn(after.lambdas, arn) == [Render(spec, w, blank)]
            && Erase(after.lambdas, arn) == Erase(c.lambdas, arn)
            && after.others == c.others
  {
    var (arn, entry) := (ExpectedArn(w.id), Render(spec, w, blank));
    var rest := Erase(c.lambdas, arn);
    RenderedArn(w.id);
    KeepSnoc(rest, entry, Carries(arn));
    KeepSnoc(rest, entry, Lacks(arn));
    KeepMembers(c.lambdas, Lacks(arn));
    KeepNone(rest, Carries(arn));
    FilterUnseen(c.lambdas, Lacks(arn), Lacks(arn));
  }

  /** Create adds its entry behind those of the ARN and of everybody else. */
  lemma CreatedAddsEntry(c: Configuration, spec: Spec, w: Webhook, blank: Option<Filter>)
    ensures var (after, arn) := (Created(c, spec, w, blank), ExpectedArn(w.id));
            && ProjectArn(after.lambdas, arn) == ProjectArn(c.lambdas, arn) + [Render(spec, w, blank)]
            && Erase(after.lambdas, arn) == Erase(c.lambdas, arn)
            && after.others == c.others
  {
    var (arn, entry) := (ExpectedArn(w.id), Render(spec, w, blank));
    RenderedArn(w.id);
    KeepSnoc(c.lambdas, entry, Carries(arn));
    KeepSnoc(c.lambdas, entry, Lacks(arn));
  }

  /** Delete leaves, of the resource's entries, exactly those that point somewhere else. */
  lemma DeletedLeavesOtherEndpoints(c: Configuration, w: Webhook)
    ensures First(Deleted(c, w).lambdas, Matches(w)).None?
    ensures Erase(Deleted(c, w).lambdas, ExpectedArn(w.id)) == Erase(c.lambdas, ExpectedArn(w.id))
    ensures ProjectArn(Deleted(c, w).lambdas, ExpectedArn(w.id)) ==
            Keep(ProjectArn(c.lambdas, ExpectedArn(w.id)), Differs(w))
  {
    KeepMembers(c.lambdas, Differs(w));
    FirstSound(Deleted(c, w).lambdas, Matches(w));
    FilterUnseen(c.lambdas, Differs(w), Lacks(ExpectedArn(w.id)));
    KeepCommutes(c.lambdas, Differs(w), Carries(ExpectedArn(w.id)));
  }

  /** Update and Delete write exactly if there is a webhook, the read found the bucket and the write
      gets through, and then only to that bucket's list. */
  lemma RewriteEffects(configs: map<string, Configuration>, spec: Spec, blank: Option<Filter>, get: Call, put: Call)
    requires spec.webhook.Some? && get.Served? && put.Applied() && spec.bucket in configs
    ensures var (c, w, arn) := (configs[spec.bucket], spec.webhook.value, ExpectedArn(spec.webhook.value.id));
            var updated := AfterUpdate(configs, spec, blank, get, put).0;
            var deleted := AfterDelete(configs, spec, get, put).0;
            && updated.Keys == deleted.Keys == configs.Keys
            && updated - {spec.bucket} == deleted - {spec.bucket} == configs - {spec.bucket}
            && updated[spec.bucket].others == deleted[spec.bucket].others == c.others
            && ProjectArn(updated[spec.bucket].lambdas, arn) == [Render(spec, w, blank)]
            && Erase(updated[spec.bucket].lambdas, arn) == Erase(c.lambdas, arn)
            && Erase(deleted[spec.bucket].lambdas, arn) == Erase(c.lambdas, arn)
            && ProjectArn(deleted[spec.bucket].lambdas, arn) == Keep(ProjectArn(c.lambdas, arn), Differs(w))
  {
    UpdatedReplacesArn(configs[spec.bucket], spec, spec.webhook.value, blank);
    DeletedLeavesOtherEndpoints(configs[spec.bucket], spec.webhook.value);
  }

  // ---------------------------------------------------------------- the up-to-date check

  /** `l` is the entry that Update would write, but for the order of its events. */
  ghost predicate SameUpToOrder(l: Lambda, written: Lambda) {
    && l.arn.Text() == written.arn.Text()
    && l.endpoint == written.endpoint
    && multiset(l.events) == multiset(written.events)
    && l.filter == written.filter
  }

  /** Specs whose own rendering Observe accepts. */
  ghost predicate Settleable(spec: Spec, blank: Option<Filter>) {
    NoDuplicates(spec.events) && (spec.WantsRules() || blank.None?)
  }

  /** Observe accepts what Create and Update write exactly for settleable specs. */
  lemma RenderedUpToDateIff(spec: Spec, w: Webhook, blank: Option<Filter>)
    ensures UpToDate(spec, w, Render(spec, w, blank)) <==> Settleable(spec, blank)
  {
    SetSize(spec.events);
  }

  /** For settleable specs and entries found under the resource's ARN, Observe accepts exactly
      the entries Update would write up to the order of events, among the duplicate-free ones. */
  lemma UpToDateExact(spec: Spec, w: Webhook, l: Lambda, blank: Option<Filter>)
    requires Settleable(spec, blank) && l.arn.Text() == ExpectedArn(w.id)
    ensures SameUpToOrder(l, Render(spec, w, blank)) <==> NoDuplicates(l.events) && UpToDate(spec, w, l)
  {
    RenderedArn(w.id);
    SizeAndInclusionExact(l.events, spec.events);
  }

  /** A spec that names an event twice is never up to date with an entry that lists its events. */
  lemma DuplicateEventsNeverSettle(spec: Spec, w: Webhook, l: Lambda)
    requires !NoDuplicates(spec.events) && multiset(l.events) == multiset(spec.events)
    ensures !UpToDate(spec, w, l)
  {
    SetSize(spec.events);
    assert |l.events| == |multiset(l.events)| == |spec.events|;
  }

  /** The check compares sizes, so an entry that repeats one event passes for two. */
  lemma RepeatedEntryEventAccepted(w: Webhook)
    ensures var spec := Spec("b", Some(w), ["put", "get"], None);
            var l := Lambda("", NewArn(w.id), w.endpoint, ["put", "put"], None);
            && Settleable(spec, None) && UpToDate(spec, w, l)
            && !SameUpToOrder(l, Render(spec, w, None))
  {
    var spec := Spec("b", Some(w), ["put", "get"], None);
    assert (set e | e in spec.events) == {"put", "get"};
    assert "put" != "get" by { assert "put"[0] != "get"[0]; }
    assert multiset(["put", "put"])["get"] == 0;
    assert multiset(spec.events)["get"] == 1;
  }
}
