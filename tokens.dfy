/** The token store of the Sup client (Sup/TokenManager.cs): one token record
    cached in memory (`_cachedTokens`) and mirrored in `tokens.json`, plus the
    refresh exchange that replaces it.

    File-system, JSON and network calls are inputs: the contents of the file
    are a `FileText`, and each I/O step that may throw takes a parameter saying
    whether it does. The clock is the `now` parameter of a save. */
module Tokens {
  import opened Runtime

  /** `TokenData`: both token fields are .NET strings and may be null when a
      file written by someone else is deserialised. `createdAt` is an opaque
      timestamp chosen by the caller of a save. */
  datatype TokenData = TokenData(accessToken: NullableString, refreshToken: NullableString, createdAt: int)

  /** What the next read of `tokens.json` finds in it. */
  datatype FileText =
    | Serialized(data: TokenData)  // a record written by a save; deserialises to the same record
    | JsonNull                     // the JSON literal `null`; deserialises to a null record
    | Unparsable                   // anything else (an empty or cut-off file): deserialising throws

  /** How the directory creation and file write of a save end. */
  datatype WriteStep =
    | Written      // the directory exists or is created, and the whole file is written
    | NotWritten   // creating the directory or opening the file throws; the old file stays
    | Truncated    // the file is opened (and so emptied) but writing it throws

  /** The store's state: the in-memory record and the file. */
  datatype Store = Store(cache: Option<TokenData>, file: Option<FileText>)

  /** The test that both the cache short-circuit of a load and the bearer
      header use: a non-null record with a non-empty access token. */
  predicate Usable(t: Option<TokenData>) {
    t.Some? && !IsNullOrEmpty(t.value.accessToken)
  }

  /** What a load returns, and the store after it. */
  datatype LoadOutcome = LoadOutcome(record: Option<TokenData>, store: Store)

  /** `SaveTokensAsync`: the cache is replaced before any file I/O, and a
      failure of that I/O is swallowed. */
  function SaveStep(s: Store, accessToken: NullableString, refreshToken: NullableString, now: int, write: WriteStep): Store
  {
    var record := TokenData(accessToken, refreshToken, now);
    Store(Some(record),
          match write
          case Written => Some(Serialized(record))
          case NotWritten => s.file
          case Truncated => Some(Unparsable))
  }

  /** `LoadTokensAsync`. `readFails` says whether reading the file throws. */
  function LoadStep(s: Store, readFails: bool): (o: LoadOutcome)
    // loading never writes the file
    ensures o.store.file == s.file
    // whatever is returned is what the cache holds afterwards
    ensures o.record.Some? ==> o.store.cache == o.record
    // a returned record is either the cached one or the one in the file
    ensures o.record.Some? ==> o.record == s.cache || s.file == Some(Serialized(o.record.value))
    // the cache changes only when it did not short-circuit and the file was read
    ensures o.store.cache != s.cache ==> !Usable(s.cache) && s.file.Some? && !readFails
    // a file that is read replaces the cache by the record it holds, or by null for the literal `null`
    ensures !Usable(s.cache) && !readFails && s.file.Some? && s.file.value.Serialized? ==>
              o == LoadOutcome(Some(s.file.value.data), s.(cache := Some(s.file.value.data)))
    ensures !Usable(s.cache) && !readFails && s.file == Some(JsonNull) ==> o == LoadOutcome(None, s.(cache := None))
  {
    if Usable(s.cache) then LoadOutcome(s.cache, s)
    else if s.file.None? then LoadOutcome(None, s)
    else if readFails then LoadOutcome(None, s)
    else match s.file.value
      case Serialized(d) => LoadOutcome(Some(d), s.(cache := Some(d)))
      case JsonNull => LoadOutcome(None, s.(cache := None))
      case Unparsable => LoadOutcome(None, s)
  }

  /** `ClearTokens`. `deleteFails` says whether deleting an existing file throws. */
  function ClearStep(s: Store, deleteFails: bool): Store {
    Store(None, if deleteFails then s.file else None)
  }

  /** A JSON property of a refresh response. */
  datatype JsonField = Missing | Null | Text(text: string)

  /** The body of a refresh response. */
  datatype AuthBody =
    | AuthJson(accessToken: JsonField, refreshToken: JsonField)
    | NullJson       // the literal `null`
    | BadJson        // not JSON, or the body cannot be read

  /** `AuthResponse` (Sup/MainWindow.axaml.cs:135-141): both properties
      default to the empty string when missing from the body. */
  datatype AuthResponse = AuthResponse(accessToken: NullableString, refreshToken: NullableString)

  function FieldValue(f: JsonField): NullableString {
    match f
    case Missing => Some("")
    case Null => None
    case Text(t) => Some(t)
  }

  /** What the refresh endpoint does with the request. */
  datatype RefreshReply = NetworkError | HttpReply(status: int, body: AuthBody)

  /** The new token pair a refresh reply grants: the deserialised response of
      a success status whose access token is non-empty, and nothing otherwise.
      A `null` body makes the source dereference null, a bad body makes the
      deserialiser throw; both are caught and reported as failure. */
  function Granted(reply: RefreshReply): (a: Option<AuthResponse>)
    ensures a.Some? ==> !IsNullOrEmpty(a.value.accessToken)
    ensures a.Some? <==> reply.HttpReply? && IsSuccessStatusCode(reply.status)
                         && reply.body.AuthJson? && reply.body.accessToken.Text? && reply.body.accessToken.text != ""
    ensures a.Some? ==> a.value.accessToken == Some(reply.body.accessToken.text)
    ensures a.Some? ==> a.value.refreshToken == FieldValue(reply.body.refreshToken)
  {
    match reply
    case NetworkError => None
    case HttpReply(status, body) =>
      if !IsSuccessStatusCode(status) then None
      else match body
        case AuthJson(access, refresh) =>
          var response := AuthResponse(FieldValue(access), FieldValue(refresh));
          if IsNullOrEmpty(response.accessToken) then None else Some(response)
        case NullJson => None
        case BadJson => None
  }

  /** The inputs of one refresh: whether its load's file read throws, the
      endpoint's reply, and the clock and write outcome of its save. */
  datatype RefreshIo = RefreshIo(loadFails: bool, reply: RefreshReply, now: int, write: WriteStep)

  /** Whether the refresh succeeded, which refresh token it posted (`None`:
      no network call was made), and the store afterwards. */
  datatype RefreshOutcome = RefreshOutcome(ok: bool, posted: Option<string>, store: Store)

  /** A loaded record that carries a refresh token worth posting. */
  predicate HasRefreshToken(t: Option<TokenData>) {
    t.Some? && !IsNullOrEmpty(t.value.refreshToken)
  }

  /** `RefreshAccessTokenAsync`. */
  function RefreshStep(s: Store, io: RefreshIo): (o: RefreshOutcome)
    // the endpoint is called exactly when the loaded record has a refresh token, and is sent that token
    ensures o.posted.None? <==> !HasRefreshToken(LoadStep(s, io.loadFails).record)
    ensures o.posted.Some? ==> Some(o.posted.value) == LoadStep(s, io.loadFails).record.value.refreshToken
    // success exactly when the endpoint was called and granted a pair
    ensures o.ok <==> o.posted.Some? && Granted(io.reply).Some?
    // a failed refresh never saves: only the load's cache fill remains
    ensures !o.ok ==> o.store == LoadStep(s, io.loadFails).store
    // a successful one caches the new access token and the new refresh token, or the old one when the new is null
    ensures o.ok ==> o.store.cache == Some(TokenData(Granted(io.reply).value.accessToken,
                                                      if Granted(io.reply).value.refreshToken.Some?
                                                      then Granted(io.reply).value.refreshToken
                                                      else Some(o.posted.value),
                                                      io.now))
    ensures o.ok ==> Usable(o.store.cache)
    // and saves that pair as a save does: in the cache and, as the write allows, in the file
    ensures o.ok ==> o.store == SaveStep(LoadStep(s, io.loadFails).store, o.store.cache.value.accessToken,
                                         o.store.cache.value.refreshToken, io.now, io.write)
  {
    var loaded := LoadStep(s, io.loadFails);
    if !HasRefreshToken(loaded.record) then RefreshOutcome(false, None, loaded.store)
    else
      var current := loaded.record.value.refreshToken;
      match Granted(io.reply)
      case None => RefreshOutcome(false, Some(current.value), loaded.store)
      case Some(auth) =>
        var refreshToken := if auth.refreshToken.Some? then auth.refreshToken else current;
        RefreshOutcome(true, Some(current.value), SaveStep(loaded.store, auth.accessToken, refreshToken, io.now, io.write))
  }

  /** The static `TokenManager`, as one object per process. */
  class TokenManager {
    var cache: Option<TokenData>
    var file: Option<FileText>

    function State(): Store
      reads this
    {
      Store(cache, file)
    }

    /** Process start: nothing cached, and whatever file an earlier run left. */
    constructor(existing: Option<FileText>)
      ensures State() == Store(None, existing)
    {
      cache := None;
      file := existing;
    }

    method SaveTokens(accessToken: NullableString, refreshToken: NullableString, now: int, write: WriteStep)
      modifies this
      ensures State() == SaveStep(old(State()), accessToken, refreshToken, now, write)
    {
      cache := Some(TokenData(accessToken, refreshToken, now));
      match write {
        case Written => file := Some(Serialized(cache.value));
        case NotWritten =>
        case Truncated => file := Some(Unparsable);
      }
    }

    method LoadTokens(readFails: bool) returns (r: Option<TokenData>)
      modifies this
      ensures LoadOutcome(r, State()) == LoadStep(old(State()), readFails)
    {
      if Usable(cache) {
        return cache;
      }
      if file.None? || readFails {
        return None;
      }
      match file.value {
        case Serialized(d) => cache := Some(d);
        case JsonNull => cache := None;
        case Unparsable => return None;
      }
      return cache;
    }

    method ClearTokens(deleteFails: bool)
      modifies this
      ensures State() == ClearStep(old(State()), deleteFails)
    {
      cache := None;
      if file.Some? && !deleteFails {
        file := None;
      }
    }

    method RefreshAccessToken(io: RefreshIo) returns (ok: bool, posted: Option<string>)
      modifies this
      ensures RefreshOutcome(ok, posted, State()) == RefreshStep(old(State()), io)
    {
      var tokens := LoadTokens(io.loadFails);
      if tokens.None? || IsNullOrEmpty(tokens.value.refreshToken) {
        return false, None;
      }
      posted := Some(tokens.value.refreshToken.value);
      var granted := Granted(io.reply);
      if granted.None? {
        return false, posted;
      }
      var auth := granted.value;
      var refreshToken := if auth.refreshToken.Some? then auth.refreshToken else tokens.value.refreshToken;
      SaveTokens(auth.accessToken, refreshToken, io.now, io.write);
      ok := true;
    }
  }

  // ----- Properties of the store -----

  /** A save followed by a load returns the saved pair from the cache, whatever
      the file holds or whether reading it would fail. */
  lemma SaveThenLoad(s: Store, a: string, r: NullableString, now: int, write: WriteStep, readFails: bool)
    requires a != ""
    ensures var saved := SaveStep(s, Some(a), r, now, write);
            LoadStep(saved, readFails) == LoadOutcome(Some(TokenData(Some(a), r, now)), saved)
  {
  }

  /** The file is a best-effort mirror: the cache holds the new record whatever
      happens to the file, and the file holds either that record, what it held
      before, or an unreadable remnant. */
  lemma SaveIsBestEffort(s: Store, a: NullableString, r: NullableString, now: int, write: WriteStep)
    ensures var saved := SaveStep(s, a, r, now, write);
            && saved.cache == Some(TokenData(a, r, now))
            && (saved.file == Some(Serialized(TokenData(a, r, now))) || saved.file == s.file || saved.file == Some(Unparsable))
            && (saved.file == Some(Serialized(TokenData(a, r, now))) <==> write == Written || (s.file == Some(Serialized(TokenData(a, r, now))) && write == NotWritten))
  {
  }

  /** A fully written save survives a restart: a new process, with nothing
      cached, loads the same record from the file. */
  lemma SaveSurvivesRestart(s: Store, a: NullableString, r: NullableString, now: int)
    ensures LoadStep(Store(None, SaveStep(s, a, r, now, Written).file), false).record == Some(TokenData(a, r, now))
  {
  }

  /** A usable cached record is returned without consulting the file: the
      outcome does not depend on the file or on whether reading it fails. */
  lemma CacheShortCircuits(c: Option<TokenData>, f1: Option<FileText>, f2: Option<FileText>, rf1: bool, rf2: bool)
    requires Usable(c)
    ensures LoadStep(Store(c, f1), rf1).record == LoadStep(Store(c, f2), rf2).record == c
    ensures LoadStep(Store(c, f1), rf1).store == Store(c, f1)
  {
  }

  /** A cached record whose access token is null or empty does not
      short-circuit: the load goes to the file and replaces the cache. */
  lemma EmptyCachedAccessFallsThrough(t: TokenData, d: TokenData)
    requires IsNullOrEmpty(t.accessToken)
    ensures LoadStep(Store(Some(t), Some(Serialized(d))), false) == LoadOutcome(Some(d), Store(Some(d), Some(Serialized(d))))
    ensures LoadStep(Store(Some(t), None), false) == LoadOutcome(None, Store(Some(t), None))
  {
  }

  /** Without a usable cache, a load yields null when the file is absent, when
      reading it fails or when it does not parse, and leaves the store as it
      was; it never throws. */
  lemma LoadFailuresAreNull(s: Store, readFails: bool)
    requires !Usable(s.cache)
    requires s.file.None? || readFails || s.file == Some(Unparsable)
    ensures LoadStep(s, readFails) == LoadOutcome(None, s)
  {
  }

  /** A clear that deletes the file leaves no session: every later load yields
      null, and clearing again changes nothing. */
  lemma ClearThenLoad(s: Store, deleteFails: bool, readFails: bool, deleteFailsAgain: bool)
    requires !deleteFails || s.file.None?
    ensures ClearStep(s, deleteFails) == Store(None, None)
    ensures LoadStep(ClearStep(s, deleteFails), readFails) == LoadOutcome(None, Store(None, None))
    ensures ClearStep(ClearStep(s, deleteFails), deleteFailsAgain) == ClearStep(s, deleteFails)
  {
  }

  /** When deleting the file fails the cache is still dropped, but the next
      load restores the record from the leftover file. */
  lemma LeftoverFileRestoresSession(s: Store, d: TokenData)
    requires s.file == Some(Serialized(d))
    ensures ClearStep(s, true).cache == None
    ensures LoadStep(ClearStep(s, true), false).record == Some(d)
  {
  }

  /** After a successful refresh a load returns the new pair from the cache;
      after a failed one, a record that was loadable before is still loaded. */
  lemma RefreshThenLoad(s: Store, io: RefreshIo, readFails: bool)
    ensures var o := RefreshStep(s, io);
            o.ok ==> LoadStep(o.store, readFails).record == o.store.cache
    ensures var o := RefreshStep(s, io);
            var before := LoadStep(s, io.loadFails).record;
            !o.ok && Usable(before) ==> LoadStep(o.store, readFails).record == before
  {
  }

  /** A refreshed pair whose file write completed is what a fresh process
      loads. */
  lemma RefreshSurvivesRestart(s: Store, io: RefreshIo)
    requires RefreshStep(s, io).ok && io.write == Written
    ensures LoadStep(Store(None, RefreshStep(s, io).store.file), false).record == RefreshStep(s, io).store.cache
  {
    var o := RefreshStep(s, io);
    var t := o.store.cache.value;
    SaveSurvivesRestart(LoadStep(s, io.loadFails).store, t.accessToken, t.refreshToken, io.now);
  }

  /** Which refresh token a successful refresh keeps: the server's new one; the
      old one only when the server sends `null`; and the empty default when
      the server leaves the field out. */
  lemma RefreshTokenRotation(s: Store, io: RefreshIo, access: string, field: JsonField)
    requires io.reply == HttpReply(200, AuthJson(Text(access), field)) && access != ""
    requires HasRefreshToken(LoadStep(s, io.loadFails).record)
    ensures var o := RefreshStep(s, io);
            var previous := LoadStep(s, io.loadFails).record.value.refreshToken;
            && o.ok
            && o.store.cache.value.accessToken == Some(access)
            && o.store.cache.value.refreshToken == (match field
                                                    case Text(t) => Some(t)
                                                    case Null => previous
                                                    case Missing => Some(""))
  {
  }

  // ----- A client of the class -----

  /** A save of ("A1", "R1") at time t0 is what the next load returns. */
  method SaveThenLoadScenario(existing: Option<FileText>, t0: int, write: WriteStep, readFails: bool)
    returns (loaded: Option<TokenData>)
    ensures loaded == Some(TokenData(Some("A1"), Some("R1"), t0))
  {
    var tokens := new TokenManager(existing);
    tokens.SaveTokens(Some("A1"), Some("R1"), t0, write);
    loaded := tokens.LoadTokens(readFails);
  }
}
