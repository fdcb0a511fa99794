/** The authenticating message handler of the Sup client
    (Sup/ForTokens/AuthenticatedHttpClientHandler.cs): it attaches the bearer
    token, sends, and on a 401 takes its lock, refreshes unless its
    `_isRefreshing` flag is set, and resends at most once.

    The underlying send is an oracle: each of the (at most two) sends of a call
    is given as an input `Reply`, a status code or an exception. Whole calls
    run one after another, as the lock orders their refresh regions; the lock
    itself is a field that records whether it is held. */
module ForTokens {
  import opened Runtime
  import opened Tokens

  /** The `Authorization` header of the request as it is sent. */
  datatype Authorization = NoAuthorization | Bearer(token: NullableString)

  /** What one underlying send does: answer with a status, or throw. */
  datatype Reply = Status(code: int) | Throws

  /** The inputs of one call: whether the first load's file read throws, the
      first send, the refresh's inputs, whether the reload's file read throws,
      and the resend. Inputs of steps that do not happen are ignored. */
  datatype SendIo = SendIo(firstLoadFails: bool, first: Reply, refresh: RefreshIo, reloadFails: bool, second: Reply)

  /** What the caller gets back, the header of each underlying send in order,
      whether the refresh was invoked, the flag afterwards and the store
      afterwards. */
  datatype SendOutcome = SendOutcome(reply: Reply, sent: seq<Authorization>, refreshed: bool, refreshing: bool, store: Store)

  /** The header of the first send: the loaded access token when the loaded
      record is usable, and otherwise whatever the request already carried. */
  function Attach(request: Authorization, loaded: Option<TokenData>): (h: Authorization)
    ensures Usable(loaded) ==> h == Bearer(loaded.value.accessToken) && !IsNullOrEmpty(h.token)
    ensures !Usable(loaded) ==> h == request
  {
    if Usable(loaded) then Bearer(loaded.value.accessToken) else request
  }

  /** `SendAsync` on a handler whose flag is `refreshing`, over store `s`. */
  function SendStep(refreshing: bool, s: Store, request: Authorization, io: SendIo): (o: SendOutcome)
    // one or two underlying sends, the first with the header the first load allows
    ensures 1 <= |o.sent| <= 2
    ensures o.sent[0] == Attach(request, LoadStep(s, io.firstLoadFails).record)
    // anything but a 401 (or an exception) comes back unchanged after one send, with no refresh
    ensures io.first != Status(Unauthorized) ==>
              o.reply == io.first && |o.sent| == 1 && !o.refreshed && o.refreshing == refreshing
    // a 401 is refreshed by this very call exactly when the flag is clear
    ensures o.refreshed <==> io.first == Status(Unauthorized) && !refreshing
    // there is a resend exactly when this call's refresh succeeded
    ensures |o.sent| == 2 <==> o.refreshed && RefreshStep(LoadStep(s, io.firstLoadFails).store, io.refresh).ok
    // without a resend the first response is returned; with one, the resend's outcome is
    ensures |o.sent| == 1 ==> o.reply == io.first
    ensures |o.sent| == 2 ==> o.reply == io.second
    // the resend carries the access token the refresh obtained, not the original one
    ensures |o.sent| == 2 ==> o.sent[1] == Bearer(Granted(io.refresh.reply).value.accessToken)
    // the flag ends set exactly when it was set, or when the resend threw
    ensures o.refreshing <==> refreshing || (|o.sent| == 2 && io.second == Throws)
    // without a refresh, the store changes only by the first load's cache fill
    ensures !o.refreshed ==> o.store == LoadStep(s, io.firstLoadFails).store
    // with a refresh, the store is the one the refresh left: the reload serves its cache
    ensures o.refreshed ==> o.store == RefreshStep(LoadStep(s, io.firstLoadFails).store, io.refresh).store
  {
    var first := LoadStep(s, io.firstLoadFails);
    var header := Attach(request, first.record);
    if io.first != Status(Unauthorized) || refreshing then
      SendOutcome(io.first, [header], false, refreshing, first.store)
    else
      var refresh := RefreshStep(first.store, io.refresh);
      if !refresh.ok then
        SendOutcome(io.first, [header], true, false, refresh.store)
      else
        var reload := LoadStep(refresh.store, io.reloadFails);
        if reload.record.None? then
          SendOutcome(io.first, [header], true, false, reload.store)
        else
          SendOutcome(io.second, [header, Bearer(reload.record.value.accessToken)], true, io.second == Throws, reload.store)
  }

  /** `AuthenticatedHttpClientHandler`, sharing the process's token store. */
  class AuthenticatedHttpClientHandler {
    var isRefreshing: bool
    /** Whether `_refreshLock` is held. */
    var lockHeld: bool
    const tokens: TokenManager

    constructor(tokens: TokenManager)
      ensures !isRefreshing && !lockHeld && this.tokens == tokens
    {
      isRefreshing := false;
      lockHeld := false;
      this.tokens := tokens;
    }

    /** `SendAsync`. A result of `Throws` is an exception that leaves the
        method; the lock is released on that path too. */
    method Send(request: Authorization, io: SendIo) returns (reply: Reply, sent: seq<Authorization>, refreshed: bool)
      requires !lockHeld
      modifies this, tokens
      ensures !lockHeld
      ensures SendOutcome(reply, sent, refreshed, isRefreshing, tokens.State())
              == SendStep(old(isRefreshing), old(tokens.State()), request, io)
    {
      var tokenData := tokens.LoadTokens(io.firstLoadFails);
      var header := request;
      if Usable(tokenData) {
        header := Bearer(tokenData.value.accessToken);
      }
      sent, reply, refreshed := [header], io.first, false;
      if reply == Status(Unauthorized) {
        lockHeld := true;
        if !isRefreshing {
          isRefreshing := true;
          refreshed := true;
          var refreshSuccess, _ := tokens.RefreshAccessToken(io.refresh);
          if refreshSuccess {
            var newTokenData := tokens.LoadTokens(io.reloadFails);
            if newTokenData.Some? {
              header := Bearer(newTokenData.value.accessToken);
              sent, reply := sent + [header], io.second;
              if reply == Throws {
                // the exception skips the reset of the flag; `finally` still releases the lock
                lockHeld := false;
                return;
              }
            }
          }
          isRefreshing := false;
        }
        lockHeld := false;
      }
    }
  }

  // ----- Calls one after another -----

  /** One call: the request's own header and the call's inputs. */
  datatype Call = Call(request: Authorization, io: SendIo)

  /** The totals of a run of calls: underlying sends, refresh invocations, and
      the flag and store at the end. */
  datatype RunOutcome = RunOutcome(sends: nat, refreshes: nat, refreshing: bool, store: Store)

  /** Calls made one after another on one handler, starting with flag
      `refreshing` over store `s`. Calls whose refresh regions the lock
      serialises behave as such a run. */
  function Run(refreshing: bool, s: Store, calls: seq<Call>): RunOutcome
    decreases |calls|
  {
    if calls == [] then RunOutcome(0, 0, refreshing, s)
    else
      var o := SendStep(refreshing, s, calls[0].request, calls[0].io);
      var rest := Run(o.refreshing, o.store, calls[1..]);
      RunOutcome(|o.sent| + rest.sends, (if o.refreshed then 1 else 0) + rest.refreshes, rest.refreshing, rest.store)
  }

  /** How many calls get a 401 from their first send. */
  function CountUnauthorized(calls: seq<Call>): nat
    decreases |calls|
  {
    if calls == [] then 0
    else (if calls[0].io.first == Status(Unauthorized) then 1 else 0) + CountUnauthorized(calls[1..])
  }

  /** No call loops: a run makes at most two underlying sends per call, and at
      least one. */
  lemma {:induction false} RunSendBound(refreshing: bool, s: Store, calls: seq<Call>)
    ensures |calls| <= Run(refreshing, s, calls).sends <= 2 * |calls|
    decreases |calls|
  {
    if calls != [] {
      var o := SendStep(refreshing, s, calls[0].request, calls[0].io);
      RunSendBound(o.refreshing, o.store, calls[1..]);
    }
  }

  /** The flag does not deduplicate refreshes: while no resend throws, it is
      clear whenever a call takes the lock, so every call whose first send
      gets a 401 runs a refresh of its own. */
  lemma {:induction false} EveryUnauthorizedCallRefreshes(s: Store, calls: seq<Call>)
    requires forall i :: 0 <= i < |calls| ==> calls[i].io.second != Throws
    ensures Run(false, s, calls).refreshes == CountUnauthorized(calls)
    ensures !Run(false, s, calls).refreshing
    decreases |calls|
  {
    if calls != [] {
      var o := SendStep(false, s, calls[0].request, calls[0].io);
      EveryUnauthorizedCallRefreshes(o.store, calls[1..]);
    }
  }

  /** A set flag is never cleared again: no later call refreshes, and every
      call makes exactly one send. */
  lemma {:induction false} StuckFlagBlocksRefresh(s: Store, calls: seq<Call>)
    ensures Run(true, s, calls).refreshes == 0
    ensures Run(true, s, calls).refreshing
    ensures Run(true, s, calls).sends == |calls|
    decreases |calls|
  {
    if calls != [] {
      var o := SendStep(true, s, calls[0].request, calls[0].io);
      StuckFlagBlocksRefresh(o.store, calls[1..]);
    }
  }

  /** A resend that throws leaves the flag set, so that refresh is the last
      one the handler ever runs, whatever follows. */
  lemma ThrowingResendEndsRefreshes(s: Store, first: Call, rest: seq<Call>)
    requires |SendStep(false, s, first.request, first.io).sent| == 2
    requires first.io.second == Throws
    ensures Run(false, s, [first] + rest).refreshes == 1
    ensures Run(false, s, [first] + rest).refreshing
  {
    var o := SendStep(false, s, first.request, first.io);
    assert ([first] + rest)[1..] == rest;
    StuckFlagBlocksRefresh(o.store, rest);
  }

  /** What the next load sees after a call: the refreshed pair after a call
      that resent, and the record the call started with when its refresh
      failed. */
  lemma SendThenLoad(refreshing: bool, s: Store, request: Authorization, io: SendIo, readFails: bool)
    ensures var o := SendStep(refreshing, s, request, io);
            |o.sent| == 2 ==> && LoadStep(o.store, readFails).record == o.store.cache
                              && o.store.cache.value.accessToken == Granted(io.refresh.reply).value.accessToken
    ensures var o := SendStep(refreshing, s, request, io);
            var before := LoadStep(s, io.firstLoadFails);
            o.refreshed && |o.sent| == 1 && Usable(before.record) ==> LoadStep(o.store, readFails).record == before.record
  {
    var before := LoadStep(s, io.firstLoadFails);
    RefreshThenLoad(before.store, io.refresh, readFails);
    if Usable(before.record) {
      CacheShortCircuits(before.store.cache, before.store.file, before.store.file, io.refresh.loadFails, io.refresh.loadFails);
    }
  }

  // ----- Clients of the classes -----

  /** A request sent with "A1" gets a 401; the refresh is granted ("A2",
      "R2") at time t1; the request is resent with "A2", and the store then
      holds the new pair. */
  method RefreshAndRetryScenario(t0: int, t1: int, answer: int) returns (reply: Reply, sent: seq<Authorization>, after: Option<TokenData>)
    ensures reply == Status(answer)
    ensures sent == [Bearer(Some("A1")), Bearer(Some("A2"))]
    ensures after == Some(TokenData(Some("A2"), Some("R2"), t1))
  {
    var tokens := new TokenManager(None);
    tokens.SaveTokens(Some("A1"), Some("R1"), t0, Written);
    var handler := new AuthenticatedHttpClientHandler(tokens);
    var granted := HttpReply(200, AuthJson(Text("A2"), Text("R2")));
    var io := SendIo(false, Status(Unauthorized), RefreshIo(false, granted, t1, Written), false, Status(answer));
    var refreshed;
    reply, sent, refreshed := handler.Send(NoAuthorization, io);
    after := tokens.LoadTokens(false);
  }

  /** A request sent with "A1" gets a 401 and the refresh call fails on the
      network: the 401 is returned after that single send, without a resend,
      and the store still holds ("A1", "R1"). */
  method FailedRefreshScenario(t0: int, t1: int, second: Reply) returns (reply: Reply, sent: seq<Authorization>, after: Option<TokenData>)
    ensures reply == Status(Unauthorized)
    ensures sent == [Bearer(Some("A1"))]
    ensures after == Some(TokenData(Some("A1"), Some("R1"), t0))
  {
    var tokens := new TokenManager(None);
    tokens.SaveTokens(Some("A1"), Some("R1"), t0, Written);
    var handler := new AuthenticatedHttpClientHandler(tokens);
    var io := SendIo(false, Status(Unauthorized), RefreshIo(false, NetworkError, t1, Written), false, second);
    var refreshed;
    reply, sent, refreshed := handler.Send(NoAuthorization, io);
    after := tokens.LoadTokens(false);
  }
}
