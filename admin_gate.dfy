/** The authorization gate `SocketAdmin.before(socket, method)` that runs
    ahead of every admin socket call. Its collaborators enter as values: the
    answer of `user.isAdministrator(uid)`, the table
    `privileges.admin.socketMap` from method names to `;`-separated
    privilege lists, and the answers of `privileges.admin.can(privilege, uid)`. */
module AdminGate {
  import opened JsValues
  import opened JsStrings
  import opened AdminSurface

  /** The message of the error the gate throws on every denial. */
  const NO_PRIVILEGES: string := "[[error:no-privileges]]"

  /** The privilege list of a method: its `socketMap` entry split on `;` when
      `method` is an own key of the table, otherwise the empty list. A mapped
      method's list is non-empty, no piece holds a `;`, and the pieces join
      back to the entry, which by `SplitJoin` makes it exactly the split. */
  function PrivilegeSet(socketMap: map<string, string>, methodName: string): (privs: seq<string>)
    ensures methodName !in socketMap ==> privs == []
    ensures methodName in socketMap ==> |privs| >= 1 && Join(privs, ';') == socketMap[methodName]
    ensures forall i :: 0 <= i < |privs| ==> ';' !in privs[i]
  {
    if methodName in socketMap then
      JoinSplit(socketMap[methodName], ';');
      Split(socketMap[methodName], ';')
    else []
  }

  /** `privs.map(p => can(p, uid))`, walking the list from the front: one
      answer per privilege, in list order. */
  function Answers(privs: seq<string>, uid: int, can: (string, int) -> bool): (answers: seq<bool>)
    ensures |answers| == |privs|
    ensures forall i :: 0 <= i < |privs| ==> answers[i] == can(privs[i], uid)
    decreases |privs|
  {
    if privs == [] then []
    else
      var rest := Answers(privs[1..], uid, can);
      [can(privs[0], uid)] + rest
  }

  /** The `can` queries that `privs.map(…)` starts, walking the list from the
      front: one per privilege, all of them, in list order (`Promise.all`
      awaits every one). */
  function Queries(privs: seq<string>, uid: int): (qs: seq<Effect>)
    ensures |qs| == |privs|
    ensures forall i :: 0 <= i < |privs| ==> qs[i] == Can(privs[i], uid)
    decreases |privs|
  {
    if privs == [] then []
    else
      var rest := Queries(privs[1..], uid);
      [Can(privs[0], uid)] + rest
  }

  /** Some answer after the first is true iff some answer of the tail is. */
  lemma TailHasTrue(answers: seq<bool>)
    requires answers != []
    ensures (exists i :: 0 <= i < |answers[1..]| && answers[1..][i]) <==>
            (exists i :: 1 <= i < |answers| && answers[i])
  {
    if exists i :: 0 <= i < |answers[1..]| && answers[1..][i] {
      var i :| 0 <= i < |answers[1..]| && answers[1..][i];
      assert answers[i + 1];
    }
    if exists i :: 1 <= i < |answers| && answers[i] {
      var i :| 1 <= i < |answers| && answers[i];
      assert answers[1..][i - 1];
    }
  }

  /** `answers.some(Boolean)`, evaluated left to right: true exactly when one
      of the answers is true. */
  function Some(answers: seq<bool>): (r: bool)
    ensures r <==> exists i :: 0 <= i < |answers| && answers[i]
    decreases |answers|
  {
    if answers == [] then false
    else
      TailHasTrue(answers);
      answers[0] || Some(answers[1..])
  }

  /** Some privilege of the list passes `can` for this user. */
  predicate HoldsAny(privs: seq<string>, uid: int, can: (string, int) -> bool) {
    exists p :: p in privs && can(p, uid)
  }

  lemma AnswersAnyOf(privs: seq<string>, uid: int, can: (string, int) -> bool)
    ensures Some(Answers(privs, uid, can)) <==> HoldsAny(privs, uid, can)
  {
    var answers := Answers(privs, uid, can);
    if HoldsAny(privs, uid, can) {
      var p :| p in privs && can(p, uid);
      var i :| 0 <= i < |privs| && privs[i] == p;
      assert answers[i];
    }
  }

  /** The gate: what `before(socket, method)` calls and whether it returns or
      throws `[[error:no-privileges]]`. The call is let through exactly when
      the caller is an administrator, or the method is mapped and some
      privilege of its entry, split on `;`, passes `can`. */
  function Before(socket: Socket, methodName: string, isAdmin: bool,
                  socketMap: map<string, string>, can: (string, int) -> bool): (x: Execution)
    ensures x.completion.Returned? <==>
      isAdmin || (methodName in socketMap && HoldsAny(Split(socketMap[methodName], ';'), socket.uid, can))
  {
    var asked := [IsAdministrator(socket.uid)];
    if isAdmin then Execution(asked, Returned(Undefined))
    else
      var privs := PrivilegeSet(socketMap, methodName);
      AnswersAnyOf(privs, socket.uid, can);
      var hasPrivilege := Some(Answers(privs, socket.uid, can));
      var trace := asked + Queries(privs, socket.uid);
      if |privs| > 0 && hasPrivilege then Execution(trace, Returned(Undefined))
      else Execution(trace + [Warn(methodName, socket.uid)], Threw(Error(NO_PRIVILEGES)))
  }

  /** The call is let through. */
  predicate Allowed(x: Execution) {
    x.completion.Returned?
  }

  /** An administrator is let through for every method name, mapped or not;
      the gate asks nothing beyond `isAdministrator`, reads no `socketMap`
      entry and logs no warning. */
  lemma AdministratorBypass(socket: Socket, methodName: string,
                            socketMap: map<string, string>, can: (string, int) -> bool,
                            otherMap: map<string, string>, otherCan: (string, int) -> bool)
    ensures Allowed(Before(socket, methodName, true, socketMap, can))
    ensures Before(socket, methodName, true, socketMap, can).trace == [IsAdministrator(socket.uid)]
    ensures Before(socket, methodName, true, socketMap, can) == Before(socket, methodName, true, otherMap, otherCan)
  {
  }

  /** A caller who is not an administrator is refused every method that is
      not an own key of `socketMap`, whatever `can` would answer; no `can`
      query is made. */
  lemma UnmappedIsDenied(socket: Socket, methodName: string,
                         socketMap: map<string, string>, can: (string, int) -> bool)
    requires methodName !in socketMap
    ensures Before(socket, methodName, false, socketMap, can)
      == Execution([IsAdministrator(socket.uid), Warn(methodName, socket.uid)], Threw(Error(NO_PRIVILEGES)))
  {
    assert Queries([], socket.uid) == [];
  }

  /** For a caller who is not an administrator and a mapped method, the call
      is let through exactly when at least one privilege of the split entry
      passes `can` (any of them, not all of them). */
  lemma MappedIsAnyOf(socket: Socket, methodName: string,
                      socketMap: map<string, string>, can: (string, int) -> bool)
    requires methodName in socketMap
    ensures Allowed(Before(socket, methodName, false, socketMap, can))
      <==> exists p :: p in Split(socketMap[methodName], ';') && can(p, socket.uid)
  {
    AnswersAnyOf(Split(socketMap[methodName], ';'), socket.uid, can);
  }

  /** An entry that is present but empty splits to `[""]`: the call is decided
      by `can("", uid)`, not refused outright. */
  lemma EmptyEntryAsksEmptyPrivilege(socket: Socket, methodName: string,
                                     socketMap: map<string, string>, can: (string, int) -> bool)
    requires methodName in socketMap && socketMap[methodName] == ""
    ensures PrivilegeSet(socketMap, methodName) == [""]
    ensures Allowed(Before(socket, methodName, false, socketMap, can)) <==> can("", socket.uid)
  {
    AnswersAnyOf([""], socket.uid, can);
  }

  /** The order of the privileges in an entry, and repetitions among them,
      do not change the decision: two tables whose entries for the method
      list the same privileges decide alike. */
  lemma {:induction false} OrderIndependent(socket: Socket, methodName: string, isAdmin: bool,
                                            socketMap: map<string, string>, otherMap: map<string, string>,
                                            can: (string, int) -> bool)
    requires forall p :: p in PrivilegeSet(socketMap, methodName) <==> p in PrivilegeSet(otherMap, methodName)
    ensures Allowed(Before(socket, methodName, isAdmin, socketMap, can))
         == Allowed(Before(socket, methodName, isAdmin, otherMap, can))
  {
    var privs := PrivilegeSet(socketMap, methodName);
    var others := PrivilegeSet(otherMap, methodName);
    AnswersAnyOf(privs, socket.uid, can);
    AnswersAnyOf(others, socket.uid, can);
    if |privs| > 0 { assert privs[0] in others; }
    if |others| > 0 { assert others[0] in privs; }
  }

  /** For a caller who is not an administrator, the gate makes exactly these
      calls: `isAdministrator`, then one `can` query per listed privilege in
      list order whatever the answers, then, on denial only, one warning.
      Nothing else is called. */
  lemma EveryPrivilegeAsked(socket: Socket, methodName: string,
                            socketMap: map<string, string>, can: (string, int) -> bool)
    ensures var x := Before(socket, methodName, false, socketMap, can);
      var privs := PrivilegeSet(socketMap, methodName);
      x.trace == [IsAdministrator(socket.uid)] + Queries(privs, socket.uid) +
                 (if Allowed(x) then [] else [Warn(methodName, socket.uid)])
  {
  }

  lemma {:induction false} QueriesWarnFree(privs: seq<string>, uid: int, w: Effect)
    requires w.Warn?
    ensures Count(Queries(privs, uid), w) == 0
  {
    CountAbsent(Queries(privs, uid), w);
  }

  /** A denial logs exactly one warning naming the method and the user, as the
      last call before the throw, and the error is `[[error:no-privileges]]`;
      a call let through logs no warning at all. */
  lemma WarnsExactlyOnDenial(socket: Socket, methodName: string, isAdmin: bool,
                             socketMap: map<string, string>, can: (string, int) -> bool)
    ensures var x := Before(socket, methodName, isAdmin, socketMap, can);
      var w := Warn(methodName, socket.uid);
      (Allowed(x) ==> Count(x.trace, w) == 0 && forall i :: 0 <= i < |x.trace| ==> !x.trace[i].Warn?) &&
      (!Allowed(x) ==> Count(x.trace, w) == 1 && x.trace[|x.trace| - 1] == w &&
                       x.completion == Threw(Error(NO_PRIVILEGES)))
  {
    var x := Before(socket, methodName, isAdmin, socketMap, can);
    var w := Warn(methodName, socket.uid);
    var asked := [IsAdministrator(socket.uid)];
    assert Count(asked, w) == 0;
    if !isAdmin {
      var privs := PrivilegeSet(socketMap, methodName);
      var qs := Queries(privs, socket.uid);
      QueriesWarnFree(privs, socket.uid, w);
      CountAppend(asked, qs, w);
      if !Allowed(x) {
        CountAppend(asked + qs, [w], w);
        assert Count([w], w) == 1;
      }
    }
  }

  /** A method mapped to a single privilege `p` (such as `config.set` to
      `admin:settings`) lets a non-administrator through iff `p` passes;
      otherwise the call is refused with exactly one warning. */
  lemma SinglePrivilegeEntry(socket: Socket, methodName: string, p: string,
                             socketMap: map<string, string>, can: (string, int) -> bool)
    requires ';' !in p
    requires methodName in socketMap && socketMap[methodName] == p
    ensures var x := Before(socket, methodName, false, socketMap, can);
      (Allowed(x) <==> can(p, socket.uid)) &&
      (!can(p, socket.uid) ==> Count(x.trace, Warn(methodName, socket.uid)) == 1)
  {
    SplitJoin([p], ';');
    MappedIsAnyOf(socket, methodName, socketMap, can);
    WarnsExactlyOnDenial(socket, methodName, false, socketMap, can);
  }

  /** A two-privilege entry `"a;b"` lets the caller through iff `a` or `b`
      passes. */
  lemma TwoPrivilegeEntry(socket: Socket, methodName: string, a: string, b: string,
                          socketMap: map<string, string>, can: (string, int) -> bool)
    requires ';' !in a && ';' !in b
    requires methodName in socketMap && socketMap[methodName] == a + ";" + b
    ensures Allowed(Before(socket, methodName, false, socketMap, can))
      <==> can(a, socket.uid) || can(b, socket.uid)
  {
    SplitJoin([a, b], ';');
    assert Join([a, b], ';') == a + ";" + b by {
      assert Join([b], ';') == b;
    }
    MappedIsAnyOf(socket, methodName, socketMap, can);
  }
}
