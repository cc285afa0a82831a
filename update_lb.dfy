/** The state change of update-lb.py: `_update_state`, which posts one form to
    every balancer of the cluster, and `main`, which reads the current status,
    resolves the named servers, asks for confirmation before a bulk change that
    takes servers out of service, updates, and reads the status again.

    The balancers' answers are inputs (one `Fetch` per balancer for each of the
    two status reads), the posts and the console notices are an output log, and
    the operator's answer to the confirmation prompt is a parameter. */
module UpdateLb {
  import opened Wrappers
  import opened Text
  import opened StatusMatrix
  import opened NameResolver

  /** The three flags `--ready`, `--drain` and `--maint`. */
  datatype State = Ready | Drain | Maint

  /** The value of `set_state`, which is also the form's `action`. */
  function Action(s: State): (a: string)
    ensures a in ["ready", "drain", "maint"]
  {
    match s
    case Ready => "ready"
    case Drain => "drain"
    case Maint => "maint"
  }

  /** `state.upper()` in the console notice. */
  function Shout(s: State): string
  {
    match s
    case Ready => "READY"
    case Drain => "DRAIN"
    case Maint => "MAINT"
  }

  /** The form posted to a balancer: `s`, `b` and `action`. */
  datatype Payload = Payload(servers: seq<string>, backendSelector: string, action: string)

  datatype Event =
    | Notice(lb: string, server: string, state: string)
    | Post(lb: string, payload: Payload)

  function PayloadFor(servers: seq<string>, iid: string, state: State): Payload
  {
    Payload(servers, "#" + iid, Action(state))
  }

  function Notices(lb: string, servers: seq<string>, state: State): seq<Event>
    decreases |servers|
  {
    if |servers| == 0 then []
    else Notices(lb, servers[..|servers| - 1], state) + [Notice(lb, servers[|servers| - 1], Shout(state))]
  }

  /** What `_update_state` does: for each balancer in turn, a notice per
      server, then the post. `iids[lb]` raises `KeyError` for a balancer
      without a recorded id, which ends the run there (`Some(lb)`). */
  function UpdateTrace(lbs: seq<string>, servers: seq<string>, state: State, iids: map<string, string>)
    : (seq<Event>, Option<string>)
    decreases |lbs|
  {
    if |lbs| == 0 then ([], None)
    else
      var notices := Notices(lbs[0], servers, state);
      if lbs[0] !in iids then (notices, Some(lbs[0]))
      else
        var (rest, missing) := UpdateTrace(lbs[1..], servers, state, iids);
        (notices + [Post(lbs[0], PayloadFor(servers, iids[lbs[0]], state))] + rest, missing)
  }

  /** The inner loop: one notice per server, in order. */
  method EmitNotices(lb: string, servers: seq<string>, state: State) returns (notices: seq<Event>)
    ensures notices == Notices(lb, servers, state)
  {
    notices := [];
    var j := 0;
    while j < |servers|
      invariant 0 <= j <= |servers|
      invariant notices == Notices(lb, servers[..j], state)
    {
      assert servers[..j + 1][..j] == servers[..j];
      notices := notices + [Notice(lb, servers[j], Shout(state))];
      j := j + 1;
    }
    assert servers[..j] == servers;
  }

  /** One step of `UpdateTrace`, for the loop below. */
  lemma UpdateTraceStep(lbs: seq<string>, i: nat, servers: seq<string>, state: State, iids: map<string, string>)
    requires i < |lbs|
    ensures var step := UpdateTrace(lbs[i..], servers, state, iids);
      var notices := Notices(lbs[i], servers, state);
      if lbs[i] !in iids then step == (notices, Some(lbs[i]))
      else
        var rest := UpdateTrace(lbs[i + 1..], servers, state, iids);
        step.0 == notices + [Post(lbs[i], PayloadFor(servers, iids[lbs[i]], state))] + rest.0 && step.1 == rest.1
  {
    assert lbs[i..][1..] == lbs[i + 1..];
  }

  lemma AppendStep(events: seq<Event>, notices: seq<Event>, post: Event, rest: seq<Event>)
    ensures events + (notices + [post] + rest) == (events + notices + [post]) + rest
  {
  }

  method UpdateState(lbs: seq<string>, servers: seq<string>, state: State, iids: map<string, string>)
      returns (events: seq<Event>, missing: Option<string>)
    ensures (events, missing) == UpdateTrace(lbs, servers, state, iids)
  {
    ghost var spec := UpdateTrace(lbs, servers, state, iids);
    events := [];
    var i := 0;
    assert lbs[i..] == lbs;
    while i < |lbs|
      invariant 0 <= i <= |lbs|
      invariant spec.0 == events + UpdateTrace(lbs[i..], servers, state, iids).0
      invariant spec.1 == UpdateTrace(lbs[i..], servers, state, iids).1
    {
      var lb := lbs[i];
      UpdateTraceStep(lbs, i, servers, state, iids);
      var notices := EmitNotices(lb, servers, state);
      ghost var before := events;
      events := events + notices;
      if lb !in iids {
        return events, Some(lb);
      }
      var post := Post(lb, PayloadFor(servers, iids[lb], state));
      events := events + [post];
      AppendStep(before, notices, post, UpdateTrace(lbs[i + 1..], servers, state, iids).0);
      i := i + 1;
    }
    assert lbs[i..] == [];
    assert events + [] == events;
    return events, None;
  }

  /** The posts of a log, in order. */
  function PostsOf(events: seq<Event>): seq<(string, Payload)>
  {
    if |events| == 0 then []
    else (if events[0].Post? then [(events[0].lb, events[0].payload)] else []) + PostsOf(events[1..])
  }

  /** The position of the first balancer without a recorded id, or `|lbs|`. */
  function FirstMissing(lbs: seq<string>, iids: map<string, string>): (n: nat)
    ensures n <= |lbs|
    ensures forall k :: 0 <= k < n ==> lbs[k] in iids
    ensures n < |lbs| ==> lbs[n] !in iids
    decreases |lbs|
  {
    if |lbs| == 0 || lbs[0] !in iids then 0 else 1 + FirstMissing(lbs[1..], iids)
  }

  lemma {:induction false} PostsOfAppend(a: seq<Event>, b: seq<Event>)
    ensures PostsOf(a + b) == PostsOf(a) + PostsOf(b)
  {
    if |a| == 0 {
      assert a + b == b;
    } else {
      var ab := a + b;
      assert ab[0] == a[0];
      assert ab[1..] == a[1..] + b;
      PostsOfAppend(a[1..], b);
    }
  }

  lemma {:induction false} NoticesHaveNoPosts(lb: string, servers: seq<string>, state: State)
    ensures PostsOf(Notices(lb, servers, state)) == []
    ensures |Notices(lb, servers, state)| == |servers|
    decreases |servers|
  {
    if |servers| > 0 {
      NoticesHaveNoPosts(lb, servers[..|servers| - 1], state);
      PostsOfAppend(Notices(lb, servers[..|servers| - 1], state), [Notice(lb, servers[|servers| - 1], Shout(state))]);
    }
  }

  /** One post per balancer, in `lbs` order, carrying the
      server list, `'#' + iids[lb]` and the state, up to the first balancer
      without a recorded id, where the run stops. */
  lemma {:induction false} UpdatePosts(lbs: seq<string>, servers: seq<string>, state: State, iids: map<string, string>)
    ensures var (events, missing) := UpdateTrace(lbs, servers, state, iids);
      var n := FirstMissing(lbs, iids);
      && |PostsOf(events)| == n
      && (forall k :: 0 <= k < n ==>
            PostsOf(events)[k] == (lbs[k], Payload(servers, "#" + iids[lbs[k]], Action(state))))
      && missing == (if n < |lbs| then Some(lbs[n]) else None)
    decreases |lbs|
  {
    if |lbs| > 0 {
      NoticesHaveNoPosts(lbs[0], servers, state);
      if lbs[0] in iids {
        var notices := Notices(lbs[0], servers, state);
        var post := Post(lbs[0], PayloadFor(servers, iids[lbs[0]], state));
        var rest := UpdateTrace(lbs[1..], servers, state, iids).0;
        UpdatePosts(lbs[1..], servers, state, iids);
        PostsOfAppend(notices + [post], rest);
        PostsOfAppend(notices, [post]);
        var posts := PostsOf(notices + [post] + rest);
        assert posts == [(lbs[0], PayloadFor(servers, iids[lbs[0]], state))] + PostsOf(rest);
        forall k | 0 < k < FirstMissing(lbs, iids)
          ensures posts[k] == (lbs[k], Payload(servers, "#" + iids[lbs[k]], Action(state)))
        {
          assert lbs[1..][k - 1] == lbs[k];
        }
      }
    }
  }

  /** Every balancer gets exactly one post when all of them have an id. */
  lemma OnePostPerBalancer(lbs: seq<string>, servers: seq<string>, state: State, iids: map<string, string>)
    requires forall lb :: lb in lbs ==> lb in iids
    ensures UpdateTrace(lbs, servers, state, iids).1 == None
    ensures |PostsOf(UpdateTrace(lbs, servers, state, iids).0)| == |lbs|
  {
    UpdatePosts(lbs, servers, state, iids);
  }

  // ---------------------------------------------------------------------------
  // `main`.

  /** The cluster's entry in the configuration: its balancers and backend. */
  datatype Cluster = Cluster(servers: seq<string>, backend: string)

  /** Whether `main` asks before updating: a bulk change to a state other than
      ready. */
  function NeedsConfirmation(state: State, allServers: bool): (r: bool)
    ensures r <==> Action(state) != "ready" && allServers
  {
    state != Ready && allServers
  }

  /** The observable result of one run: exit status, whether the "ignoring
      server list" warning was shown, the two tables, whether the operator
      was asked, and the log of notices and posts. */
  datatype Outcome = Outcome(
    exitCode: int,
    warned: bool,
    current: Option<Table>,
    prompted: bool,
    events: seq<Event>,
    updated: Option<Table>)

  /** The balancer order `main` uses. */
  function Balancers(cluster: Cluster): (lbs: seq<string>)
    ensures multiset(lbs) == multiset(cluster.servers)
    ensures |lbs| == |cluster.servers|
    ensures SortedBy(lbs, Identity)
  {
    var lbs := SortBy(cluster.servers, Identity);
    assert |lbs| == |multiset(lbs)| == |multiset(cluster.servers)| == |cluster.servers|;
    lbs
  }

  /** The resolution `main` uses once the current status is known. */
  function Selection(d: Dump, tokens: seq<string>): Result<(seq<string>, bool), ResolveError>
  {
    Resolve(d.matrix.Keys, tokens)
  }

  /** Whether the state update goes ahead: the status read, a state was
      requested, the names resolved and the prompt (if any) was accepted. */
  predicate Proceeds(cur: Result<Dump, DumpError>, tokens: seq<string>, setState: Option<State>, confirm: bool)
  {
    && cur.Success? && setState.Some?
    && Selection(cur.value, tokens).Success?
    && (NeedsConfirmation(setState.value, Selection(cur.value, tokens).value.1) ==> confirm)
  }

  /** `main`: print the status table, and when a state was requested, resolve
      the names, ask before draining or stopping every server, send the
      update and print the table again. `before` and `after` are what the
      balancers answer to the two status reads, `confirm` the operator's
      answer to the prompt. */
  method Run(cluster: Cluster, tokens: seq<string>, setState: Option<State>,
             before: seq<Fetch>, after: seq<Fetch>, confirm: bool)
      returns (out: Outcome)
    requires |before| == |cluster.servers| && |after| == |cluster.servers|
    ensures out.warned <==> |tokens| > 0 && setState.None?
    ensures out.exitCode == 0 || out.exitCode == 1
    ensures var lbs := Balancers(cluster);
      var cur := Aggregate(EmptyDump, lbs, before, cluster.backend);
      && out.current == (if cur.Success? then Some(Render("Current status", lbs, cur.value.matrix)) else None)
      && (out.prompted <==>
            cur.Success? && setState.Some? && Selection(cur.value, tokens).Success? &&
            NeedsConfirmation(setState.value, Selection(cur.value, tokens).value.1))
      && (out.events ==
            if Proceeds(cur, tokens, setState, confirm)
            then UpdateTrace(lbs, Selection(cur.value, tokens).value.0, setState.value, cur.value.iids).0
            else [])
      && (out.exitCode == 0 <==>
            cur.Success? &&
            (setState.None? ||
             (Proceeds(cur, tokens, setState, confirm) &&
              UpdateTrace(lbs, Selection(cur.value, tokens).value.0, setState.value, cur.value.iids).1.None? &&
              Aggregate(EmptyDump, lbs, after, cluster.backend).Success?)))
      && (out.updated.Some? <==> out.exitCode == 0 && setState.Some?)
      && (out.updated.Some? ==>
            out.updated == Some(Render("New status", lbs, Aggregate(EmptyDump, lbs, after, cluster.backend).value.matrix)))
  {
    var warned := |tokens| > 0 && setState.None?;
    var lbs := Balancers(cluster);
    var current := DumpStats(lbs, before, cluster.backend, "Current status");
    if current.Failure? {
      return Outcome(1, warned, None, false, [], None);
    }
    var (d, table) := current.value;
    if setState.None? {
      return Outcome(0, warned, Some(table), false, [], None);
    }
    var state := setState.value;
    var resolved := ResolveServers(d.matrix.Keys, tokens);
    if resolved.Failure? {
      return Outcome(1, warned, Some(table), false, [], None);
    }
    var (servers, allServers) := resolved.value;
    var prompted := NeedsConfirmation(state, allServers);
    if prompted && !confirm {
      return Outcome(1, warned, Some(table), true, [], None);
    }
    var events, missing := UpdateState(lbs, servers, state, d.iids);
    if missing.Some? {
      return Outcome(1, warned, Some(table), prompted, events, None);
    }
    var updated := DumpStats(lbs, after, cluster.backend, "New status");
    if updated.Failure? {
      return Outcome(1, warned, Some(table), prompted, events, None);
    }
    return Outcome(0, warned, Some(table), prompted, events, Some(updated.value.1));
  }

  /** A declined prompt or a name that does not resolve sends nothing. */
  lemma NothingSentWithoutGoAhead(cur: Result<Dump, DumpError>, tokens: seq<string>, setState: Option<State>, confirm: bool)
    requires cur.Success? && setState.Some?
    requires Selection(cur.value, tokens).Failure? ||
             (NeedsConfirmation(setState.value, Selection(cur.value, tokens).value.1) && !confirm)
    ensures !Proceeds(cur, tokens, setState, confirm)
  {
  }

  /** Naming servers never triggers the prompt; naming none with a non-ready
      state always does. */
  lemma PromptOnlyForBulk(d: Dump, tokens: seq<string>, state: State)
    ensures |tokens| > 0 && Selection(d, tokens).Success? ==>
              !NeedsConfirmation(state, Selection(d, tokens).value.1)
    ensures |tokens| == 0 ==> (NeedsConfirmation(state, Selection(d, tokens).value.1) <==> state != Ready)
  {
    if |tokens| > 0 && Selection(d, tokens).Success? {
      ResolveNamed(d.matrix.Keys, tokens);
    }
  }
}
