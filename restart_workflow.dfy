/** The restart and reload workflow of the admin socket methods:
    `logRestart`, `SocketAdmin.restart` and `SocketAdmin.reload`. Each is a
    strict sequence of collaborator calls; the first one that fails ends the
    invocation with that call's error, and nothing after it is called.
    Which calls fail is given by `respond`; the time `Date.now()` reads is
    given by `now`. */
module RestartWorkflow {
  import opened JsValues
  import opened AdminSurface

  /** The key of the durable record a restart leaves behind. */
  const LAST_RESTART: string := "lastrestart"

  /** The calls `logRestart` makes when all succeed: the restart event, then
      the `lastrestart` record. Neither is a restart, and the record is
      written once. */
  function AuditSteps(socket: Socket, now: int): (steps: seq<Effect>)
    ensures |steps| == 2 && MetaRestart !in steps
    ensures Count(steps, steps[1]) == 1
  {
    var logged := LogEvent("restart", socket.uid, socket.ip);
    var stored := SetObject(LAST_RESTART, RestartRecord(socket.uid, socket.ip, now));
    assert [logged, stored] == [logged] + [stored];
    CountAppend([logged], [stored], stored);
    [logged, stored]
  }

  /** The calls `restart` makes when all succeed: the audit, then exactly one
      `meta.restart()`, as the last call; the record is written once. */
  function RestartSteps(socket: Socket, now: int): (steps: seq<Effect>)
    ensures |steps| == 3 && steps[..2] == AuditSteps(socket, now) && steps[2] == MetaRestart
    ensures Count(steps, MetaRestart) == 1 && Count(steps, steps[1]) == 1
  {
    var audit := AuditSteps(socket, now);
    CountAbsent(audit, MetaRestart);
    CountAppend(audit, [MetaRestart], MetaRestart);
    CountAppend(audit, [MetaRestart], audit[1]);
    audit + [MetaRestart]
  }

  /** The calls `reload` makes when all succeed: the build and its event come
      first, then everything `restart` does; `meta.restart()` is the last
      call and the only restart. */
  function ReloadSteps(socket: Socket, now: int): (steps: seq<Effect>)
    ensures |steps| == 5 && steps[2..] == RestartSteps(socket, now)
    ensures steps[4] == MetaRestart && MetaRestart !in steps[..4] && Count(steps, MetaRestart) == 1
  {
    var head := [BuildAll, LogEvent("build", socket.uid, socket.ip)];
    var restart := RestartSteps(socket, now);
    CountAbsent(head, MetaRestart);
    CountAppend(head, restart, MetaRestart);
    assert (head + restart)[..4] == head + AuditSteps(socket, now);
    assert (head + restart)[2..] == restart;
    head + restart
  }

  /** Reference semantics of an async function that awaits `steps` one after
      another: each call is made once the previous one resolved; the first
      rejection ends the run with its error; otherwise the run resolves to
      `undefined`. So the calls made are a prefix of the steps, a run that
      returns made every step, and a run that throws throws the last call's
      error. */
  function Run(steps: seq<Effect>, respond: Effect -> Reply): (x: Execution)
    ensures |x.trace| <= |steps| && x.trace == steps[..|x.trace|]
    ensures x.completion.Returned? ==> x == Execution(steps, Returned(Undefined))
    ensures x.completion.Threw? ==>
      |x.trace| >= 1 && respond(x.trace[|x.trace| - 1]) == Rejected(x.completion.error)
    decreases |steps|
  {
    if steps == [] then Execution([], Returned(Undefined))
    else match respond(steps[0])
      case Rejected(e) => Execution([steps[0]], Threw(e))
      case Resolved(_) =>
        var rest := Run(steps[1..], respond);
        Execution([steps[0]] + rest.trace, rest.completion)
  }

  /** Every step resolves. */
  predicate AllResolve(steps: seq<Effect>, respond: Effect -> Reply) {
    forall i :: 0 <= i < |steps| ==> respond(steps[i]).Resolved?
  }

  /** Step `k` is the first step that rejects. */
  predicate FirstRejection(steps: seq<Effect>, respond: Effect -> Reply, k: int) {
    0 <= k < |steps| && respond(steps[k]).Rejected? &&
    forall j :: 0 <= j < k ==> respond(steps[j]).Resolved?
  }

  /** The closed form of `Run`: if every step resolves, all of them are made
      and the run resolves; if step `k` is the first to reject, exactly the
      steps up to and including `k` are made and the run throws step `k`'s
      error. */
  lemma {:induction false} RunClosedForm(steps: seq<Effect>, respond: Effect -> Reply)
    ensures AllResolve(steps, respond) ==> Run(steps, respond) == Execution(steps, Returned(Undefined))
    ensures forall k :: FirstRejection(steps, respond, k) ==>
      Run(steps, respond) == Execution(steps[..k + 1], Threw(respond(steps[k]).error))
    decreases |steps|
  {
    if steps != [] {
      RunClosedForm(steps[1..], respond);
      if AllResolve(steps, respond) {
        assert AllResolve(steps[1..], respond) by {
          forall i | 0 <= i < |steps[1..]| ensures respond(steps[1..][i]).Resolved? {
            assert steps[1..][i] == steps[i + 1];
          }
        }
        assert steps == [steps[0]] + steps[1..];
      }
      forall k | FirstRejection(steps, respond, k)
        ensures Run(steps, respond) == Execution(steps[..k + 1], Threw(respond(steps[k]).error))
      {
        if k > 0 {
          assert respond(steps[0]).Resolved?;
          assert FirstRejection(steps[1..], respond, k - 1) by {
            forall j | 0 <= j < k - 1 ensures respond(steps[1..][j]).Resolved? {
              assert steps[1..][j] == steps[j + 1];
            }
          }
          assert steps[..k + 1] == [steps[0]] + steps[1..][..k];
        }
      }
    }
  }

  /** Either every step resolves or there is a first rejecting step. */
  lemma {:induction false} ResolveOrFirstRejection(steps: seq<Effect>, respond: Effect -> Reply)
    ensures AllResolve(steps, respond) || exists k :: FirstRejection(steps, respond, k)
    decreases |steps|
  {
    if steps != [] {
      if respond(steps[0]).Rejected? {
        assert FirstRejection(steps, respond, 0);
      } else {
        ResolveOrFirstRejection(steps[1..], respond);
        if AllResolve(steps[1..], respond) {
          forall i | 0 <= i < |steps| ensures respond(steps[i]).Resolved? {
            if i > 0 { assert steps[i] == steps[1..][i - 1]; }
          }
        } else {
          var k :| FirstRejection(steps[1..], respond, k);
          assert FirstRejection(steps, respond, k + 1) by {
            forall j | 0 <= j < k + 1 ensures respond(steps[j]).Resolved? {
              if j > 0 { assert steps[j] == steps[1..][j - 1]; }
            }
          }
        }
      }
    }
  }

  /** A run resolves exactly when every step resolves. */
  lemma RunResolvesIffAllResolve(steps: seq<Effect>, respond: Effect -> Reply)
    ensures Run(steps, respond).completion.Returned? <==> AllResolve(steps, respond)
  {
    RunClosedForm(steps, respond);
    ResolveOrFirstRejection(steps, respond);
    if !AllResolve(steps, respond) {
      var k :| FirstRejection(steps, respond, k);
    }
  }

  /** Running `a` and then `b` is running `a + b`: if `a` fails, `b` never
      starts. */
  lemma {:induction false} RunAppend(a: seq<Effect>, b: seq<Effect>, respond: Effect -> Reply)
    ensures Run(a + b, respond) ==
      if Run(a, respond).completion.Threw? then Run(a, respond)
      else Execution(a + Run(b, respond).trace, Run(b, respond).completion)
    decreases |a|
  {
    if a == [] {
      assert a + b == b;
    } else {
      assert (a + b)[0] == a[0];
      assert (a + b)[1..] == a[1..] + b;
      if respond(a[0]).Resolved? {
        RunAppend(a[1..], b, respond);
        var tail := Run(a[1..], respond);
        assert Run(a, respond) == Execution([a[0]] + tail.trace, tail.completion);
        if tail.completion.Returned? {
          assert [a[0]] + (a[1..] + Run(b, respond).trace) == a + Run(b, respond).trace;
        }
      }
    }
  }

  /** `logRestart(socket)`: record the restart event, then write the
      `lastrestart` record stamped with `now`. */
  method LogRestart(socket: Socket, now: int, respond: Effect -> Reply) returns (x: Execution)
    ensures x == Run(AuditSteps(socket, now), respond)
  {
    var logged := LogEvent("restart", socket.uid, socket.ip);
    var stored := SetObject(LAST_RESTART, RestartRecord(socket.uid, socket.ip, now));
    assert AuditSteps(socket, now) == [logged] + [stored];
    RunAppend([logged], [stored], respond);
    var trace := [logged];
    if respond(logged).Rejected? {
      return Execution(trace, Threw(respond(logged).error));
    }
    trace := trace + [stored];
    if respond(stored).Rejected? {
      return Execution(trace, Threw(respond(stored).error));
    }
    x := Execution(trace, Returned(Undefined));
  }

  /** `restart(socket)`: `logRestart`, and only when it resolves,
      `meta.restart()`. */
  method Restart(socket: Socket, now: int, respond: Effect -> Reply) returns (x: Execution)
    ensures x == Run(RestartSteps(socket, now), respond)
    ensures MetaRestart in x.trace ==> x.trace == RestartSteps(socket, now)
  {
    var audit := LogRestart(socket, now, respond);
    RunAppend(AuditSteps(socket, now), [MetaRestart], respond);
    if audit.completion.Threw? {
      RestartOnlyAfterAudit(socket, now, respond);
      return audit;
    }
    var trace := audit.trace + [MetaRestart];
    if respond(MetaRestart).Rejected? {
      return Execution(trace, Threw(respond(MetaRestart).error));
    }
    x := Execution(trace, Returned(Undefined));
  }

  /** `reload(socket)`: `buildAll()`, then the build event, then
      `logRestart`, then `meta.restart()`, each only once the one before
      resolved. */
  method Reload(socket: Socket, now: int, respond: Effect -> Reply) returns (x: Execution)
    ensures x == Run(ReloadSteps(socket, now), respond)
    ensures MetaRestart in x.trace ==> x.trace == ReloadSteps(socket, now)
  {
    ReloadUnfold(socket, now, respond);
    var built := LogEvent("build", socket.uid, socket.ip);
    if respond(BuildAll).Rejected? {
      return Execution([BuildAll], Threw(respond(BuildAll).error));
    }
    if respond(built).Rejected? {
      return Execution([BuildAll, built], Threw(respond(built).error));
    }
    var restarted := Restart(socket, now, respond);
    x := Execution([BuildAll, built] + restarted.trace, restarted.completion);
    if MetaRestart in x.trace {
      assert MetaRestart in restarted.trace;
    }
  }

  /** `Run` on the reload steps, unfolded over its first two steps. */
  lemma ReloadUnfold(socket: Socket, now: int, respond: Effect -> Reply)
    ensures var built := LogEvent("build", socket.uid, socket.ip);
      Run(ReloadSteps(socket, now), respond) ==
        if respond(BuildAll).Rejected? then Execution([BuildAll], Threw(respond(BuildAll).error))
        else if respond(built).Rejected? then Execution([BuildAll, built], Threw(respond(built).error))
        else var r := Run(RestartSteps(socket, now), respond);
             Execution([BuildAll, built] + r.trace, r.completion)
  {
    var built := LogEvent("build", socket.uid, socket.ip);
    RunAppend([BuildAll, built], RestartSteps(socket, now), respond);
    assert [BuildAll, built][1..] == [built];
  }

  /** In a restart `meta.restart()` is called at most once, and only after
      the restart event and the `lastrestart` record were both written
      successfully; the record is written at most once and only after the
      event. */
  lemma RestartOnlyAfterAudit(socket: Socket, now: int, respond: Effect -> Reply)
    ensures var x := Run(RestartSteps(socket, now), respond);
      var steps := RestartSteps(socket, now);
      |x.trace| <= 3 && x.trace == steps[..|x.trace|] &&
      (MetaRestart in x.trace ==>
         x.trace == steps && respond(steps[0]).Resolved? && respond(steps[1]).Resolved?) &&
      Count(x.trace, MetaRestart) <= 1 &&
      Count(x.trace, steps[1]) <= 1
  {
    var steps := RestartSteps(socket, now);
    var x := Run(steps, respond);
    var n := RestartRunLength(socket, now, respond);
    CountPrefix(steps, n, MetaRestart);
    CountPrefix(steps, n, steps[1]);
    if n < 3 {
      assert x.trace == steps[..n];
      assert MetaRestart !in steps[..n];
    }
  }

  /** How far a restart gets: the number of its steps made, which is one
      past the first failed write, or all three. */
  lemma RestartRunLength(socket: Socket, now: int, respond: Effect -> Reply) returns (n: nat)
    ensures var steps := RestartSteps(socket, now);
      n == (if respond(steps[0]).Rejected? then 1 else if respond(steps[1]).Rejected? then 2 else 3) &&
      Run(steps, respond).trace == steps[..n]
  {
    var steps := RestartSteps(socket, now);
    RunClosedForm(steps, respond);
    if respond(steps[0]).Rejected? {
      assert FirstRejection(steps, respond, 0);
      n := 1;
    } else if respond(steps[1]).Rejected? {
      assert FirstRejection(steps, respond, 1);
      n := 2;
    } else {
      n := 3;
      if respond(steps[2]).Rejected? {
        assert FirstRejection(steps, respond, 2);
      } else {
        assert AllResolve(steps, respond);
      }
      assert steps[..3] == steps;
    }
  }

  /** If the restart event or the `lastrestart` record cannot be written, the
      process is never restarted; if the event cannot be written, no record
      is written either. The error of the failed write is what the call
      throws. */
  lemma FailedAuditPreventsRestart(socket: Socket, now: int, respond: Effect -> Reply)
    ensures var x := Run(RestartSteps(socket, now), respond);
      var steps := RestartSteps(socket, now);
      (respond(steps[0]).Rejected? ==>
         x == Execution([steps[0]], Threw(respond(steps[0]).error))) &&
      (respond(steps[0]).Resolved? && respond(steps[1]).Rejected? ==>
         x == Execution(steps[..2], Threw(respond(steps[1]).error))) &&
      (respond(steps[0]).Rejected? || respond(steps[1]).Rejected? ==> MetaRestart !in x.trace)
  {
    var steps := RestartSteps(socket, now);
    RunClosedForm(steps, respond);
    if respond(steps[0]).Rejected? {
      assert FirstRejection(steps, respond, 0);
    } else if respond(steps[1]).Rejected? {
      assert FirstRejection(steps, respond, 1);
    }
  }

  /** A restart in which every call succeeds makes exactly the restart event,
      the `lastrestart` record with the caller's id, address and time, and
      one `meta.restart()`. */
  lemma RestartSucceeds(socket: Socket, now: int, respond: Effect -> Reply)
    requires AllResolve(RestartSteps(socket, now), respond)
    ensures var x := Run(RestartSteps(socket, now), respond);
      x.completion == Returned(Undefined) &&
      x.trace == [LogEvent("restart", socket.uid, socket.ip),
                  SetObject("lastrestart", RestartRecord(socket.uid, socket.ip, now)),
                  MetaRestart] &&
      Count(x.trace, MetaRestart) == 1
  {
    RunClosedForm(RestartSteps(socket, now), respond);
  }

  /** A failed build ends `reload` at once with the build's error: no event is
      logged, no `lastrestart` record is written, no restart happens. */
  lemma FailedBuildStopsReload(socket: Socket, now: int, respond: Effect -> Reply)
    requires respond(BuildAll).Rejected?
    ensures Run(ReloadSteps(socket, now), respond)
      == Execution([BuildAll], Threw(respond(BuildAll).error))
  {
    ReloadUnfold(socket, now, respond);
  }

  /** In a reload `meta.restart()` is called at most once, and only after the
      build, the build event, the restart event and the `lastrestart` record
      all succeeded, in that order. */
  lemma ReloadOnlyAfterBuildAndAudit(socket: Socket, now: int, respond: Effect -> Reply)
    ensures ReloadOrdered(socket, now, respond)
  {
    var built := LogEvent("build", socket.uid, socket.ip);
    if respond(BuildAll).Rejected? || respond(built).Rejected? {
      ReloadStoppedEarly(socket, now, respond);
    } else {
      ReloadPastBuild(socket, now, respond);
    }
  }

  /** The ordering guarantees of a reload run. */
  predicate ReloadOrdered(socket: Socket, now: int, respond: Effect -> Reply) {
    var x := Run(ReloadSteps(socket, now), respond);
    var steps := ReloadSteps(socket, now);
    |x.trace| <= 5 && x.trace == steps[..|x.trace|] &&
    (MetaRestart in x.trace ==>
       x.trace == steps &&
       respond(BuildAll).Resolved? &&
       respond(LogEvent("build", socket.uid, socket.ip)).Resolved? &&
       respond(LogEvent("restart", socket.uid, socket.ip)).Resolved? &&
       respond(SetObject(LAST_RESTART, RestartRecord(socket.uid, socket.ip, now))).Resolved?) &&
    Count(x.trace, MetaRestart) <= 1
  }

  lemma ReloadStoppedEarly(socket: Socket, now: int, respond: Effect -> Reply)
    requires respond(BuildAll).Rejected? || respond(LogEvent("build", socket.uid, socket.ip)).Rejected?
    ensures ReloadOrdered(socket, now, respond)
  {
    var steps := ReloadSteps(socket, now);
    var x := Run(steps, respond);
    ReloadUnfold(socket, now, respond);
    var built := LogEvent("build", socket.uid, socket.ip);
    if respond(BuildAll).Rejected? {
      assert x.trace == steps[..1];
    } else {
      assert x.trace == steps[..2];
      assert x.trace == [BuildAll] + [built];
      CountAppend([BuildAll], [built], MetaRestart);
    }
  }

  lemma ReloadPastBuild(socket: Socket, now: int, respond: Effect -> Reply)
    requires respond(BuildAll).Resolved? && respond(LogEvent("build", socket.uid, socket.ip)).Resolved?
    ensures ReloadOrdered(socket, now, respond)
  {
    var built := LogEvent("build", socket.uid, socket.ip);
    var head := [BuildAll, built];
    ReloadUnfold(socket, now, respond);
    assert MetaRestart !in head;
    RestartOnlyAfterAudit(socket, now, respond);
    var r := Run(RestartSteps(socket, now), respond);
    PrefixKeepsOrder(head, RestartSteps(socket, now), r.trace);
  }

  /** Putting restart-free calls in front of an ordered run keeps it
      ordered. */
  lemma PrefixKeepsOrder(head: seq<Effect>, rest: seq<Effect>, r: seq<Effect>)
    requires MetaRestart !in head
    requires |r| <= |rest| && r == rest[..|r|]
    requires MetaRestart in r ==> r == rest
    requires Count(r, MetaRestart) <= 1
    ensures |head + r| <= |head + rest| && head + r == (head + rest)[..|head + r|]
    ensures MetaRestart in head + r ==> head + r == head + rest
    ensures Count(head + r, MetaRestart) <= 1
  {
    CountAbsent(head, MetaRestart);
    CountAppend(head, r, MetaRestart);
    assert (head + rest)[..|head + r|] == head + rest[..|r|];
  }

  /** A reload in which every call succeeds makes the build, the build event,
      the restart event, the `lastrestart` record and one restart, in that
      order. */
  lemma ReloadSucceeds(socket: Socket, now: int, respond: Effect -> Reply)
    requires AllResolve(ReloadSteps(socket, now), respond)
    ensures var x := Run(ReloadSteps(socket, now), respond);
      x.completion == Returned(Undefined) &&
      x.trace == [BuildAll, LogEvent("build", socket.uid, socket.ip),
                  LogEvent("restart", socket.uid, socket.ip),
                  SetObject("lastrestart", RestartRecord(socket.uid, socket.ip, now)),
                  MetaRestart] &&
      Count(x.trace, MetaRestart) == 1
  {
    RunClosedForm(ReloadSteps(socket, now), respond);
  }

  /** A prefix holds no more copies of an element than the whole. */
  lemma CountPrefix(s: seq<Effect>, n: nat, e: Effect)
    requires n <= |s|
    ensures Count(s[..n], e) <= Count(s, e)
  {
    assert s == s[..n] + s[n..];
    CountAppend(s[..n], s[n..], e);
  }
}
