/** reload-indico.py: after checking its flags, the script restarts the
    Celery units, touches the uWSGI file and polls the site until two requests
    in a row come back without an exception, printing one line per attempt
    with the time elapsed as `mm:ss`.

    The outcome of each HTTP attempt, together with the whole seconds elapsed
    when it was reported, is an input sequence; the real loop polls for as
    long as it takes, so a sequence that ends before the loop does leaves the
    run still polling. Restarting a unit and touching the file are entries of
    the output log. */
module ReloadIndico {
  import opened Wrappers
  import opened Text

  datatype Attempt =
    | Timeout
    | RequestError(message: string)
    | Response(code: nat, reason: string)

  /** One attempt and the whole seconds since polling started, as
      `int((datetime.now() - now).total_seconds())` gives them while the
      wall clock does not step back; a negative delay is not modelled. */
  datatype Probe = Probe(attempt: Attempt, elapsed: nat)

  datatype Output =
    | Say(text: string)
    | Restart(unit: string)
    | Touch(path: string)
    | Poll(ok: bool, text: string)

  /** `'{:02}:{:02}'.format(delay // 60, delay % 60)`. */
  function DelayPretty(delay: nat): string
  {
    ZeroPad2(delay / 60) + ":" + ZeroPad2(delay % 60)
  }

  function Status(a: Attempt): string
  {
    match a
    case Timeout => "Timeout"
    case RequestError(message) => message
    case Response(code, reason) => Decimal(code) + " " + reason
  }

  /** `status_ok`: only a response with code 200. */
  predicate StatusOk(a: Attempt)
  {
    a.Response? && a.code == 200
  }

  function PollLine(p: Probe): (o: Output)
    ensures o.Poll?
    ensures o.ok <==> p.attempt.Response? && p.attempt.code == 200
  {
    Poll(StatusOk(p.attempt), "[" + DelayPretty(p.elapsed) + "] " + Status(p.attempt))
  }

  function PollLines(probes: seq<Probe>): seq<Output>
    decreases |probes|
  {
    if |probes| == 0 then [] else PollLines(probes[..|probes| - 1]) + [PollLine(probes[|probes| - 1])]
  }

  /** `num_ok` after the given attempts: how many responses end the sequence. */
  function Streak(probes: seq<Probe>): nat
    decreases |probes|
  {
    if |probes| == 0 then 0
    else if probes[|probes| - 1].attempt.Response? then Streak(probes[..|probes| - 1]) + 1
    else 0
  }

  /** The number of attempts the loop makes before `num_ok` reaches 2, or all of
      them if it never does. */
  function StopPoint(probes: seq<Probe>, from: nat): (n: nat)
    requires from <= |probes|
    ensures from <= n <= |probes|
    decreases |probes| - from
  {
    if Streak(probes[..from]) >= 2 || from == |probes| then from else StopPoint(probes, from + 1)
  }

  /** The `while num_ok < 2` loop over the supplied attempts: the lines it
      prints, how many attempts it used and the final `num_ok`. */
  method WaitForResponses(probes: seq<Probe>) returns (lines: seq<Output>, used: nat, numOk: nat)
    ensures used == StopPoint(probes, 0)
    ensures numOk == Streak(probes[..used])
    ensures lines == PollLines(probes[..used])
  {
    lines := [];
    used := 0;
    numOk := 0;
    while numOk < 2 && used < |probes|
      invariant used <= |probes|
      invariant numOk == Streak(probes[..used]) && numOk <= 2
      invariant StopPoint(probes, 0) == StopPoint(probes, used)
      invariant lines == PollLines(probes[..used])
      decreases |probes| - used
    {
      var p := probes[used];
      assert probes[..used + 1][..used] == probes[..used];
      var status: string;
      var statusOk: bool;
      match p.attempt {
        case Timeout =>
          status := "Timeout";
          statusOk := false;
          numOk := 0;
        case RequestError(message) =>
          status := message;
          statusOk := false;
          numOk := 0;
        case Response(code, reason) =>
          status := Decimal(code) + " " + reason;
          statusOk := code == 200;
          numOk := numOk + 1;
      }
      var delayPretty := ZeroPad2(p.elapsed / 60) + ":" + ZeroPad2(p.elapsed % 60);
      lines := lines + [Poll(statusOk, "[" + delayPretty + "] " + status)];
      used := used + 1;
    }
  }

  // ---------------------------------------------------------------------------
  // `main`.

  /** The first of the three flag checks that fails, with its message.
      `celeryUnits` is the list Python 2's `map` returns in
      `_get_celery_units`, so `not celery_units` is the empty-list test. */
  function FlagError(reloadUwsgi: bool, restartCelery: bool, uwsgiFile: Option<string>, celeryUnits: seq<string>)
    : Option<string>
  {
    if reloadUwsgi && uwsgiFile.None? then Some("No uWSGI config found")
    else if restartCelery && |celeryUnits| == 0 then Some("No celery systemd units found")
    else if !reloadUwsgi && !restartCelery then Some("Nothing to do")
    else None
  }

  function RestartLog(units: seq<string>): seq<Output>
    decreases |units|
  {
    if |units| == 0 then []
    else RestartLog(units[..|units| - 1]) + [Say("Restarting " + units[|units| - 1]), Restart(units[|units| - 1])]
  }

  datatype Exit = Exited(code: int) | StillPolling

  datatype Run = Run(exit: Exit, log: seq<Output>)

  /** The Celery loop. */
  method RestartUnits(units: seq<string>) returns (log: seq<Output>)
    ensures log == RestartLog(units)
  {
    log := [];
    var i := 0;
    while i < |units|
      invariant 0 <= i <= |units|
      invariant log == RestartLog(units[..i])
    {
      assert units[..i + 1][..i] == units[..i];
      log := log + [Say("Restarting " + units[i]), Restart(units[i])];
      i := i + 1;
    }
    assert units[..i] == units;
  }

  /** The page polled on this machine. */
  function Url(fqdn: string): string
  {
    "https://" + fqdn + "/contact"
  }

  /** `main`: `uwsgiFile` is what `_get_uwsgi_file` found, `celeryUnits` what
      `_get_celery_units` listed and `fqdn` the host name of the machine. */
  method Reload(reloadUwsgi: bool, restartCelery: bool, uwsgiFile: Option<string>, celeryUnits: seq<string>,
                fqdn: string, probes: seq<Probe>)
      returns (run: Run)
    ensures var err := FlagError(reloadUwsgi, restartCelery, uwsgiFile, celeryUnits);
      err.Some? ==> run == Run(Exited(1), [Say(err.value)])
    ensures var err := FlagError(reloadUwsgi, restartCelery, uwsgiFile, celeryUnits);
      var used := StopPoint(probes, 0);
      var finished := !reloadUwsgi || Streak(probes[..used]) == 2;
      err.None? ==>
        && run.exit == (if finished then Exited(0) else StillPolling)
        && run.log ==
             (if restartCelery then RestartLog(celeryUnits) else []) +
             (if reloadUwsgi
              then [Say("Touching " + uwsgiFile.value), Touch(uwsgiFile.value),
                    Say("Waiting for HTTP response on " + Url(fqdn))] + PollLines(probes[..used])
              else []) +
             (if finished then [Say("Done")] else [])
  {
    if reloadUwsgi && uwsgiFile.None? {
      return Run(Exited(1), [Say("No uWSGI config found")]);
    }
    if restartCelery && |celeryUnits| == 0 {
      return Run(Exited(1), [Say("No celery systemd units found")]);
    }
    if !reloadUwsgi && !restartCelery {
      return Run(Exited(1), [Say("Nothing to do")]);
    }
    var log: seq<Output> := [];
    if restartCelery {
      log := RestartUnits(celeryUnits);
    }
    var finished := true;
    if reloadUwsgi {
      var path := uwsgiFile.value;
      var url := Url(fqdn);
      var lines, used, numOk := WaitForResponses(probes);
      log := log + ([Say("Touching " + path), Touch(path), Say("Waiting for HTTP response on " + url)] + lines);
      finished := numOk == 2;
    }
    if !finished {
      assert log + [] == log;
      return Run(StillPolling, log);
    }
    return Run(Exited(0), log + [Say("Done")]);
  }

  // ---------------------------------------------------------------------------
  // Lemmas.

  /** `num_ok` counts the responses since the last
      exception, whatever their code: a timeout or any other request error
      resets it, every response adds one. */
  lemma StreakSteps(probes: seq<Probe>, p: Probe)
    ensures p.attempt.Response? ==> Streak(probes + [p]) == Streak(probes) + 1
    ensures !p.attempt.Response? ==> Streak(probes + [p]) == 0
  {
    assert (probes + [p])[..|probes|] == probes;
  }

  lemma {:induction false} StreakMeansTrailingResponses(probes: seq<Probe>, k: nat)
    ensures Streak(probes) >= k <==>
            k <= |probes| && forall j :: |probes| - k <= j < |probes| ==> probes[j].attempt.Response?
    decreases |probes|
  {
    if |probes| > 0 && k > 0 {
      var init := probes[..|probes| - 1];
      StreakMeansTrailingResponses(init, k - 1);
      forall j | 0 <= j && |init| - (k - 1) <= j < |init|
        ensures init[j] == probes[j]
      {
      }
    }
  }

  /** Two responses in a row bring `num_ok` to 2. */
  lemma PairEndsStreak(probes: seq<Probe>, j: nat)
    requires 1 <= j < |probes|
    requires probes[j - 1].attempt.Response? && probes[j].attempt.Response?
    ensures Streak(probes[..j + 1]) >= 2
  {
    var ps := probes[..j + 1];
    assert ps[j] == probes[j] && ps[j - 1] == probes[j - 1];
    StreakMeansTrailingResponses(ps, 2);
  }

  /** The loop stops exactly at the first pair of
      consecutive responses: the last two attempts it made were responses, and
      no two earlier consecutive attempts were. If it ran out of attempts
      instead, no two consecutive attempts were responses. */
  lemma StopsAtFirstPair(probes: seq<Probe>)
    ensures var n := StopPoint(probes, 0);
      && (Streak(probes[..n]) >= 2 <==>
            n >= 2 && probes[n - 1].attempt.Response? && probes[n - 2].attempt.Response?)
      && (forall j :: 1 <= j && j + 1 < n ==> !(probes[j - 1].attempt.Response? && probes[j].attempt.Response?))
      && (Streak(probes[..n]) < 2 ==> n == |probes|)
  {
    var n := StopPoint(probes, 0);
    StreakMeansTrailingResponses(probes[..n], 2);
    StopPointEarlier(probes, 0);
    forall j | 1 <= j && j + 1 < n
      ensures !(probes[j - 1].attempt.Response? && probes[j].attempt.Response?)
    {
      if probes[j - 1].attempt.Response? && probes[j].attempt.Response? {
        PairEndsStreak(probes, j);
      }
    }
  }

  /** Before the stop point `num_ok` stays below 2. */
  lemma {:induction false} StopPointEarlier(probes: seq<Probe>, from: nat)
    requires from <= |probes|
    requires forall u: nat :: u < from ==> Streak(probes[..u]) < 2
    ensures forall u: nat :: u < StopPoint(probes, from) ==> Streak(probes[..u]) < 2
    ensures StopPoint(probes, from) == |probes| || Streak(probes[..StopPoint(probes, from)]) >= 2
    decreases |probes| - from
  {
    if !(Streak(probes[..from]) >= 2 || from == |probes|) {
      StopPointEarlier(probes, from + 1);
    }
  }

  /** Two responses with any code end the loop, a server error as well. */
  lemma TwoErrorPagesEndTheWait(t1: nat, t2: nat)
    ensures var probes := [Probe(Response(502, "Bad Gateway"), t1), Probe(Response(503, "Service Unavailable"), t2)];
      StopPoint(probes, 0) == 2 && Streak(probes) == 2
  {
    var probes := [Probe(Response(502, "Bad Gateway"), t1), Probe(Response(503, "Service Unavailable"), t2)];
    assert probes[..0] == [] && probes[..1] == [probes[0]] && probes[..2] == probes;
    assert [probes[0]][..0] == [];
  }

  /** The delay shows whole minutes and seconds, both zero
      padded to two digits, and reads back to the delay. */
  lemma DelayPrettyRoundTrip(delay: nat)
    ensures var p := DelayPretty(delay);
      && |p| >= 5
      && p[|p| - 3] == ':'
      && ParseDecimal(p[|p| - 2..]) < 60
      && ParseDecimal(p[..|p| - 3]) * 60 + ParseDecimal(p[|p| - 2..]) == delay
      && (delay < 6000 ==> |p| == 5)
  {
    var minutes := ZeroPad2(delay / 60);
    var seconds := ZeroPad2(delay % 60);
    ZeroPad2RoundTrip(delay / 60);
    ZeroPad2RoundTrip(delay % 60);
    var p := DelayPretty(delay);
    assert p == minutes + ":" + seconds;
    assert p[..|p| - 3] == minutes;
    assert p[|p| - 2..] == seconds;
  }

  /** The checks run in order, the first one that fails
      decides the message, and any failure comes before every restart and
      touch. */
  lemma FlagChecksInOrder(reloadUwsgi: bool, restartCelery: bool, uwsgiFile: Option<string>, celeryUnits: seq<string>)
    ensures FlagError(reloadUwsgi, restartCelery, uwsgiFile, celeryUnits) == Some("No uWSGI config found")
            <==> reloadUwsgi && uwsgiFile.None?
    ensures FlagError(reloadUwsgi, restartCelery, uwsgiFile, celeryUnits) == Some("No celery systemd units found")
            <==> !(reloadUwsgi && uwsgiFile.None?) && restartCelery && |celeryUnits| == 0
    ensures FlagError(reloadUwsgi, restartCelery, uwsgiFile, celeryUnits) == Some("Nothing to do")
            <==> !reloadUwsgi && !restartCelery
    ensures FlagError(reloadUwsgi, restartCelery, uwsgiFile, celeryUnits).None? <==>
            (reloadUwsgi || restartCelery) && (reloadUwsgi ==> uwsgiFile.Some?) && (restartCelery ==> |celeryUnits| > 0)
  {
  }

  lemma {:induction false} RestartLogShape(units: seq<string>)
    ensures |RestartLog(units)| == 2 * |units|
    ensures forall i :: 0 <= i < |units| ==>
              RestartLog(units)[2 * i] == Say("Restarting " + units[i]) && RestartLog(units)[2 * i + 1] == Restart(units[i])
    decreases |units|
  {
    if |units| > 0 {
      var init := units[..|units| - 1];
      RestartLogShape(init);
      forall i | 0 <= i < |init|
        ensures init[i] == units[i]
      {
      }
    }
  }

  /** Each unit is restarted once, in the listed order,
      and all before the uWSGI file is touched. */
  lemma RestartsBeforeTouch(units: seq<string>, path: string, rest: seq<Output>)
    ensures var log := RestartLog(units) + [Say("Touching " + path), Touch(path)] + rest;
      && |log| == 2 * |units| + 2 + |rest|
      && (forall i :: 0 <= i < |units| ==> log[2 * i + 1] == Restart(units[i]))
      && log[2 * |units| + 1] == Touch(path)
  {
    RestartLogShape(units);
  }
}
