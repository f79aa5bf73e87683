/** The admin socket methods that hand one call to a collaborator and report
    back: `fireEvent`, `deleteEvents`, `deleteAllEvents`, `getSearchDict`,
    `deleteAllSessions` and `reloadAllSessions`. */
module Passthrough {
  import opened JsValues
  import opened JsStrings
  import opened AdminSurface

  /** The language used when neither the user nor the site chose one. */
  const FALLBACK_LANG: string := "en-GB"

  /** The event every session of the caller is sent by `reloadAllSessions`. */
  const LIVERELOAD_EVENT: string := "event:livereload"

  /** `fireEvent(socket, data, callback)`: broadcast `data.name` with
      `data.payload`, or `{}` when the payload is falsy, then call
      `callback()`. When the client sent no `data` (undefined or null),
      reading `data.name` throws a `TypeError` before anything is emitted,
      and the callback is never called. */
  method FireEvent(data: JsValue) returns (x: Execution)
    ensures x.completion.Threw? <==> data == Undefined || data == Null
    ensures x.completion.Threw? ==> x == Execution([], Threw(ReadError(data, "name")))
    ensures x.completion.Returned? ==>
      |x.trace| == 2 && x.trace[0].ServerEmit? && x.trace[1] == Callback([]) &&
      x.trace[0].name == GetProp(data, "name").value &&
      Truthy(x.trace[0].payload) &&
      (Truthy(GetProp(data, "payload").value) ==> x.trace[0].payload == GetProp(data, "payload").value) &&
      (!Truthy(GetProp(data, "payload").value) ==> x.trace[0].payload == EMPTY_OBJECT)
  {
    match GetProp(data, "name")
    case TypeError(e) =>
      x := Execution([], Threw(e));
    case Value(name) =>
      var payload := GetProp(data, "payload").value;
      var trace := [ServerEmit(name, Or(payload, EMPTY_OBJECT))];
      trace := trace + [Callback([])];
      x := Execution(trace, Returned(Undefined));
  }

  /** The arguments a node-style callback receives for a settled promise:
      none on success, the error on failure. */
  function CallbackArgs(reply: Reply): (args: seq<JsValue>) {
    match reply
    case Resolved(_) => []
    case Rejected(e) => [e]
  }

  /** Makes `call` and turns its outcome into exactly one callback:
      `callback()` when it resolves, `callback(err)` when it rejects. This is
      `call.then(() => callback(), err => callback(err))`: a callback that
      throws only leaves an unhandled rejection behind and is not called
      again. */
  method CallThenCallback(call: Effect, respond: Effect -> Reply) returns (trace: seq<Effect>)
    requires !call.Callback?
    ensures |trace| == 2 && trace[0] == call && trace[1].Callback?
    ensures forall i :: 0 <= i < |trace| ==> (trace[i].Callback? <==> i == 1)
    ensures respond(call).Resolved? ==> trace[1].args == []
    ensures respond(call).Rejected? ==> trace[1].args == [respond(call).error]
    ensures Callbacks(trace) == 1
  {
    CallbacksOfPair(call, Callback(CallbackArgs(respond(call))));
    trace := [call];
    var reply := respond(call);
    if reply.Resolved? {
      trace := trace + [Callback([])];
    } else {
      trace := trace + [Callback([reply.error])];
    }
  }

  /** `call.then(() => callback()).catch(err => callback(err))` as written:
      the `catch` also receives what the success callback throws (`thrown`,
      when `callbackThrows`), and then calls the callback a second time. */
  method ThenCatchCallback(call: Effect, respond: Effect -> Reply,
                           callbackThrows: bool, thrown: JsValue) returns (trace: seq<Effect>)
    requires !call.Callback?
    ensures |trace| >= 2 && trace[0] == call
    ensures respond(call).Rejected? ==> trace == [call, Callback([respond(call).error])]
    ensures respond(call).Resolved? && !callbackThrows ==> trace == [call, Callback([])]
    ensures respond(call).Resolved? && callbackThrows ==>
      trace == [call, Callback([]), Callback([thrown])] && Callbacks(trace) == 2
  {
    assert [call, Callback([]), Callback([thrown])][1..] == [Callback([]), Callback([thrown])];
    CallbacksOfPair(Callback([]), Callback([thrown]));
    trace := [call];
    var reply := respond(call);
    if reply.Resolved? {
      trace := trace + [Callback([])];
      if callbackThrows {
        trace := trace + [Callback([thrown])];
      }
    } else {
      trace := trace + [Callback([reply.error])];
    }
  }

  /** The number of callback invocations in a trace. */
  function Callbacks(trace: seq<Effect>): (n: nat) {
    if trace == [] then 0 else (if trace[0].Callback? then 1 else 0) + Callbacks(trace[1..])
  }

  lemma CallbacksOfPair(a: Effect, b: Effect)
    ensures Callbacks([a, b]) == (if a.Callback? then 1 else 0) + (if b.Callback? then 1 else 0)
  {
    assert [a, b][1..] == [b];
    assert [b][1..] == [];
    assert Callbacks([b]) == (if b.Callback? then 1 else 0) + Callbacks([]);
  }

  /** `deleteEvents(socket, eids, callback)`: ask the event log to delete
      exactly `eids`, then call back once with its outcome. */
  method DeleteEvents(eids: seq<int>, respond: Effect -> Reply) returns (trace: seq<Effect>)
    ensures |trace| == 2 && trace[0] == DeleteEventsCall(eids)
    ensures forall i :: 0 <= i < |trace| ==> (trace[i].Callback? <==> i == 1)
    ensures trace[1] == Callback(CallbackArgs(respond(DeleteEventsCall(eids))))
  {
    trace := CallThenCallback(DeleteEventsCall(eids), respond);
  }

  /** `deleteAllEvents(socket, data, callback)`: clear the event log, then
      call back once with its outcome. */
  method DeleteAllEvents(respond: Effect -> Reply) returns (trace: seq<Effect>)
    ensures |trace| == 2 && trace[0] == DeleteAllEventsCall
    ensures forall i :: 0 <= i < |trace| ==> (trace[i].Callback? <==> i == 1)
    ensures trace[1] == Callback(CallbackArgs(respond(DeleteAllEventsCall)))
  {
    trace := CallThenCallback(DeleteAllEventsCall, respond);
  }

  /** `deleteAllSessions(socket, data, callback)`: hand the callback to
      `user.auth.deleteAllSessions`, which calls it once with its outcome. */
  method DeleteAllSessions(respond: Effect -> Reply) returns (trace: seq<Effect>)
    ensures |trace| == 2 && trace[0] == DeleteAllSessionsCall
    ensures forall i :: 0 <= i < |trace| ==> (trace[i].Callback? <==> i == 1)
    ensures trace[1] == Callback(CallbackArgs(respond(DeleteAllSessionsCall)))
  {
    trace := CallThenCallback(DeleteAllSessionsCall, respond);
  }

  /** The language `getSearchDict` asks for:
      `userLang || defaultLang || 'en-GB'`. The user's choice wins when it is
      truthy, then the site's; the result is never falsy. */
  function SearchLanguage(userLang: JsValue, defaultLang: JsValue): (lang: JsValue)
    ensures Truthy(lang)
    ensures Truthy(userLang) ==> lang == userLang
    ensures !Truthy(userLang) && Truthy(defaultLang) ==> lang == defaultLang
    ensures !Truthy(userLang) && !Truthy(defaultLang) ==> lang == Str(FALLBACK_LANG)
  {
    Or(Or(userLang, defaultLang), Str(FALLBACK_LANG))
  }

  /** With both settings strings, the language is the user's when set, else
      the site default when set, else `en-GB`; it is never empty. */
  lemma SearchLanguageFallback(userLang: string, defaultLang: string)
    ensures SearchLanguage(Str(userLang), Str(defaultLang)) ==
      Str(if userLang != "" then userLang
          else if defaultLang != "" then defaultLang
          else FALLBACK_LANG)
    ensures SearchLanguage(Str(userLang), Str(defaultLang)).s != ""
  {
  }

  /** A user without a `userLang` setting gets the site default, and
      `en-GB` when the site has none either. */
  lemma MissingUserLanguage(defaultLang: JsValue)
    ensures SearchLanguage(Undefined, defaultLang) ==
      if Truthy(defaultLang) then defaultLang else Str(FALLBACK_LANG)
  {
  }

  /** `getSearchDict(socket)`: read the caller's settings, choose the
      language, and return the search dictionary for it. A rejected call is
      rethrown unchanged; settings that resolve to undefined or null make
      the read of `userLang` throw a `TypeError`. */
  method GetSearchDict(socket: Socket, defaultLang: JsValue, respond: Effect -> Reply)
    returns (x: Execution)
    ensures 1 <= |x.trace| <= 2 && x.trace[0] == GetSettings(socket.uid)
    ensures respond(GetSettings(socket.uid)).Rejected? ==>
      x == Execution([GetSettings(socket.uid)], Threw(respond(GetSettings(socket.uid)).error))
    ensures |x.trace| == 2 ==>
      respond(GetSettings(socket.uid)).Resolved? &&
      var userLang := GetProp(respond(GetSettings(socket.uid)).value, "userLang");
      userLang.Value? && x.trace[1] == GetDictionary(SearchLanguage(userLang.value, defaultLang)) &&
      x.completion == (match respond(x.trace[1])
                       case Resolved(v) => Returned(v)
                       case Rejected(e) => Threw(e))
    ensures (respond(GetSettings(socket.uid)).Resolved? &&
             GetProp(respond(GetSettings(socket.uid)).value, "userLang").Value?) ==> |x.trace| == 2
    ensures (respond(GetSettings(socket.uid)).Resolved? &&
             GetProp(respond(GetSettings(socket.uid)).value, "userLang").TypeError?) ==>
      x == Execution([GetSettings(socket.uid)],
                     Threw(ReadError(respond(GetSettings(socket.uid)).value, "userLang")))
  {
    var read := GetSettings(socket.uid);
    x := Execution([read], Returned(Undefined));
    match respond(read)
    case Rejected(e) =>
      x := Execution([read], Threw(e));
    case Resolved(settings) =>
      match GetProp(settings, "userLang")
      case TypeError(e) =>
        x := Execution([read], Threw(e));
      case Value(userLang) =>
        var lang := SearchLanguage(userLang, defaultLang);
        var lookup := GetDictionary(lang);
        match respond(lookup)
        case Rejected(e) =>
          x := Execution([read, lookup], Threw(e));
        case Resolved(dictionary) =>
          x := Execution([read, lookup], Returned(dictionary));
  }

  /** The room of a user's sessions: `uid_` followed by the user id. */
  function Room(uid: int): (room: string) {
    "uid_" + IntToDecimal(uid)
  }

  /** Distinct users have distinct rooms, so a live reload reaches the
      caller's own sessions and nobody else's. */
  lemma RoomInjective(a: int, b: int)
    requires Room(a) == Room(b)
    ensures a == b
  {
    assert Room(a)[4..] == IntToDecimal(a);
    assert Room(b)[4..] == IntToDecimal(b);
    IntToDecimalInjective(a, b);
  }

  /** `reloadAllSessions(socket, data, callback)`: send `event:livereload` to
      the caller's room only, then call `callback()` once. */
  method ReloadAllSessions(socket: Socket) returns (trace: seq<Effect>)
    ensures |trace| == 2 && trace[1] == Callback([])
    ensures trace[0].RoomEmit? && trace[0].event == LIVERELOAD_EVENT
    ensures forall uid :: trace[0].room == Room(uid) <==> uid == socket.uid
  {
    trace := [RoomEmit(Room(socket.uid), LIVERELOAD_EVENT), Callback([])];
    forall uid | trace[0].room == Room(uid) ensures uid == socket.uid {
      RoomInjective(uid, socket.uid);
    }
  }
}
