/** The vocabulary shared by the admin socket methods: the calling socket,
    the observable calls they make on their collaborators, how those calls
    complete, and the fixed table of administrative sub-namespaces that
    makes up the `SocketAdmin` object. */
module AdminSurface {
  import opened JsValues

  /** The connection a call arrives on: the caller's user id and address. */
  datatype Socket = Socket(uid: int, ip: string)

  /** The record `db.setObject('lastrestart', …)` stores. */
  datatype RestartRecord = RestartRecord(uid: int, ip: string, timestamp: int)

  /** One observable call made by an admin socket method, in the order made.
      A call that fails is still recorded: it was made. */
  datatype Effect =
    | IsAdministrator(uid: int)                  // user.isAdministrator(uid)
    | Can(privilege: string, uid: int)           // privileges.admin.can(privilege, uid)
    | Warn(methodName: string, uid: int)           // winston.warn naming the blocked call
    | BuildAll                                   // buildAll() of meta/build
    | LogEvent(eventType: string, uid: int, ip: string)  // events.log({type, uid, ip})
    | SetObject(key: string, record: RestartRecord)      // db.setObject(key, record)
    | MetaRestart                                // meta.restart(), not awaited
    | ServerEmit(name: JsValue, payload: JsValue)        // server.emit to every connection
    | RoomEmit(room: string, event: string)      // websockets.in(room).emit(event)
    | DeleteEventsCall(eids: seq<int>)           // events.deleteEvents(eids)
    | DeleteAllEventsCall                        // events.deleteAll()
    | DeleteAllSessionsCall                      // user.auth.deleteAllSessions()
    | GetSettings(uid: int)                      // user.getSettings(uid)
    | GetDictionary(lang: JsValue)               // getDictionary(lang) of admin/search
    | Callback(args: seq<JsValue>)               // the socket callback, with its arguments

  /** How a collaborator call completes: a promise that resolves with a value
      or rejects with an error (for a call made without `await`, returning
      or throwing). */
  datatype Reply = Resolved(value: JsValue) | Rejected(error: JsValue)

  /** How an admin socket method completes: by returning (an async function's
      promise resolving) or by throwing (its promise rejecting). */
  datatype Completion = Returned(value: JsValue) | Threw(error: JsValue)

  /** What one invocation did: the calls it made, in order, and how it ended. */
  datatype Execution = Execution(trace: seq<Effect>, completion: Completion)

  /** The number of elements of `s` equal to `e`. */
  function Count(s: seq<Effect>, e: Effect): (n: nat) {
    if s == [] then 0 else (if s[0] == e then 1 else 0) + Count(s[1..], e)
  }

  lemma {:induction false} CountAppend(a: seq<Effect>, b: seq<Effect>, e: Effect)
    ensures Count(a + b, e) == Count(a, e) + Count(b, e)
    decreases |a|
  {
    if a != [] {
      assert (a + b)[0] == a[0];
      assert (a + b)[1..] == a[1..] + b;
      CountAppend(a[1..], b, e);
    } else {
      assert a + b == b;
    }
  }

  lemma {:induction false} CountAbsent(s: seq<Effect>, e: Effect)
    ensures e !in s <==> Count(s, e) == 0
    decreases |s|
  {
    if s != [] {
      CountAbsent(s[1..], e);
      assert s == [s[0]] + s[1..];
    }
  }

  /** What a key of the `SocketAdmin` object holds: one of the administrative
      sub-namespace modules, or a handler defined in the admin socket file. */
  datatype Member = SubNamespace(modulePath: string) | Handler(name: string)

  /** The sub-namespaces of the `SocketAdmin` object literal, in source order:
      each key with the module it is imported from. */
  const NAMESPACES: seq<(string, string)> := [
    ("adminUser", "./admin/user"),
    ("categories", "./admin/categories"),
    ("settings", "./admin/settings"),
    ("tags", "./admin/tags"),
    ("rewards", "./admin/rewards"),
    ("navigation", "./admin/navigation"),
    ("rooms", "./admin/rooms"),
    ("social", "./admin/social"),
    ("themes", "./admin/themes"),
    ("plugins", "./admin/plugins"),
    ("widgets", "./admin/widgets"),
    ("config", "./admin/config"),
    ("email", "./admin/email"),
    ("analytics", "./admin/analytics"),
    ("logs", "./admin/logs"),
    ("errors", "./admin/errors"),
    ("digest", "./admin/digest"),
    ("cache", "./admin/cache")
  ]

  /** No two sub-namespaces share a key, so each is registered once. */
  lemma NamespaceKeysDistinct()
    ensures forall i, j :: 0 <= i < j < |NAMESPACES| ==> NAMESPACES[i].0 != NAMESPACES[j].0
  {
  }

  /** The handlers assigned to `SocketAdmin` after the literal, in source
      order. */
  const HANDLERS: seq<string> := [
    "before", "restart", "reload", "fireEvent", "deleteEvents",
    "deleteAllEvents", "getSearchDict", "deleteAllSessions",
    "reloadAllSessions", "getServerTime"
  ]

  /** `k` is one of the sub-namespace keys. */
  predicate IsNamespaceKey(k: string) {
    exists i :: 0 <= i < |NAMESPACES| && NAMESPACES[i].0 == k
  }

  /** `k` is one of the handler names. */
  predicate IsHandlerName(k: string) {
    exists i :: 0 <= i < |HANDLERS| && HANDLERS[i] == k
  }

  /** `k` is none of the sub-namespace keys. */
  predicate NotNamespace(k: string) {
    forall i :: 0 <= i < |NAMESPACES| ==> NAMESPACES[i].0 != k
  }

  /** No two handlers share a name, so each is assigned once. */
  lemma HandlerNamesDistinct()
    ensures forall i, j :: 0 <= i < j < |HANDLERS| ==> HANDLERS[i] != HANDLERS[j]
  {
  }

  /** No handler assignment reuses a sub-namespace key. */
  lemma HandlerNamesAreFree()
    ensures forall j :: 0 <= j < |HANDLERS| ==> NotNamespace(HANDLERS[j])
  {
  }

  /** The `SocketAdmin` object literal: every sub-namespace key bound to the
      module it is imported from, and no other key. */
  function NamespaceObject(): (literal: map<string, Member>)
    ensures forall i :: 0 <= i < |NAMESPACES| ==>
      NAMESPACES[i].0 in literal && literal[NAMESPACES[i].0] == SubNamespace(NAMESPACES[i].1)
    ensures forall k :: k in literal ==> IsNamespaceKey(k)
  {
    NamespaceKeysDistinct();
    map i | 0 <= i < |NAMESPACES| :: NAMESPACES[i].0 := SubNamespace(NAMESPACES[i].1)
  }

  /** Builds the `SocketAdmin` object as the source does: the object literal
      of sub-namespaces, then one property assignment per handler, in source
      order. No assignment overwrites a sub-namespace or an earlier handler,
      so the surface has every sub-namespace key bound to its own module,
      every handler name bound to its handler, and no other key. */
  method ComposeSurface() returns (surface: map<string, Member>)
    ensures forall i :: 0 <= i < |NAMESPACES| ==>
      NAMESPACES[i].0 in surface && surface[NAMESPACES[i].0] == SubNamespace(NAMESPACES[i].1)
    ensures forall i :: 0 <= i < |HANDLERS| ==>
      HANDLERS[i] in surface && surface[HANDLERS[i]] == Handler(HANDLERS[i])
    ensures forall k :: k in surface ==> IsNamespaceKey(k) || IsHandlerName(k)
  {
    HandlerNamesDistinct();
    HandlerNamesAreFree();
    surface := NamespaceObject();
    for n := 0 to |HANDLERS|
      invariant forall i :: 0 <= i < |NAMESPACES| ==>
        NAMESPACES[i].0 in surface && surface[NAMESPACES[i].0] == SubNamespace(NAMESPACES[i].1)
      invariant forall i :: 0 <= i < n ==>
        HANDLERS[i] in surface && surface[HANDLERS[i]] == Handler(HANDLERS[i])
      invariant forall k :: k in surface ==>
        IsNamespaceKey(k) || exists i :: 0 <= i < n && HANDLERS[i] == k
    {
      surface := surface[HANDLERS[n] := Handler(HANDLERS[n])];
    }
  }
}
