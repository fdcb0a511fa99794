# Sup client: token store, authenticating handler and search paging, in Dafny

This project models the authenticated request pipeline of the Sup desktop chat
client, and proves properties of that model.

- **Token store** (`Tokens`, from `TokenManager`). One token record is cached in
  memory and mirrored in `tokens.json`. Save replaces the cache, and the file
  when the write succeeds. Load serves the cache when it holds a non-empty
  access token, and otherwise reads the file. Clear drops the cache, and the
  file when the delete succeeds. Refresh posts the refresh token and saves the pair it gets back.
- **Authenticating handler** (`ForTokens`, from `AuthenticatedHttpClientHandler`).
  It attaches the bearer token and sends. On a 401 it takes its lock and
  checks its `_isRefreshing` flag. If the flag is clear it refreshes, and if the
  refresh succeeds it resends once.
- **Search paging** (`MainChat`, from `MainChatWindow`). This covers the blank-query
  gate, the page fields and the Prev/Next button flags, the request URL, and
  the forced logout on a 401.
- **URL text** (`UriText`). This covers `Uri.EscapeDataString` and the decimal
  page number. A decoder is the partner that shows the URL string carries
  the same query and page.
- **Runtime** (`Runtime`). These are the .NET pieces the code relies on: null
  strings, `IsNullOrEmpty`, `IsNullOrWhiteSpace` and `IsSuccessStatusCode`.

Each stateful class (`TokenManager`, `AuthenticatedHttpClientHandler`,
`MainChatWindow`) has the source's fields. Its methods change those fields step
by step, as the C# does. Each method is proved to leave the state given by a
pure step function of the old state and the inputs (`SaveStep`, `LoadStep`,
`ClearStep`, `RefreshStep`, `SendStep`, `SearchStep`, `TypedStep`, `PrevStep`,
`NextStep`). The properties are proved about those functions.

Inputs stand in for I/O:
- The file's contents are a `FileText`.
- Each file step that can throw takes a flag.
- The refresh endpoint's answer is a `RefreshReply`.
- Each underlying send of the handler is a `Reply`, which is a status or an
  exception.
- The search call's result is a `SearchReply`.
- The clock is the `now` parameter of a save.

The handler's calls are modelled as whole calls, one after another (`Run`).
That is the order the lock imposes on their refresh regions.

Behaviour of the code that a reader may not expect:
- The handler does not deduplicate refreshes. The flag is set and cleared
  inside the lock, so a caller that takes the lock always finds it clear, unless
  an earlier resend threw. Every call whose first send gets a 401 runs its own
  refresh (`EveryUnauthorizedCallRefreshes`).
- When the refresh fails, the handler does not resend. It returns the first
  401 after one send (`SendStep`, `FailedRefreshScenario`).
- When the resend throws, the flag stays set for good. From then on no call
  refreshes (`StuckFlagBlocksRefresh`, `ThrowingResendEndsRefreshes`).
- A failed refresh does not save. But its own load may still fill the cache
  from the file (`RefreshStep`).
- `_totalPages` is a C# `int`, and `_totalPages - 1` is unchecked. A page count
  of `int.MinValue` from the server wraps it to `int.MaxValue`, so Next is
  enabled and a click asks for a page beyond the count
  (`MinValueTotalEnablesNext`). The model follows the default unchecked build.
- Load serves the cache only when the cached access token is non-empty. A
  cached record with an empty access token goes back to the file
  (`EmptyCachedAccessFallsThrough`).

## Model

| member | source | states |
|---|---|---|
| `Tokens.LoadStep` | Sup/TokenManager.cs:48-69 | Load never writes the file. A returned record is the cache afterwards. It comes either from the cache or from the file. The cache changes only when it did not short-circuit and the file was read. A file that is read replaces the cache with the record it holds, or empties it for the literal `null`. |
| `Tokens.Granted` | Sup/TokenManager.cs:104-116 | A reply grants a pair exactly when it has a success status, an object body and a non-empty access token. The granted access token is the reply's. The granted refresh token is the field's value: null when null, and `""` when missing. |
| `Tokens.RefreshStep` | Sup/TokenManager.cs:91-125 | The endpoint is called exactly when the loaded record has a refresh token, and it is sent that token. Success happens exactly when a pair is granted. A failure leaves only the load's effect. A success saves the new access token with the new refresh token, or with the old one when the new one is null, exactly as a save does: in the cache, and in the file as the write allows. |
| `Tokens.TokenManager.constructor` | Sup/TokenManager.cs:12-16 | A process starts with nothing cached and with the file an earlier run left. |
| `Tokens.TokenManager.SaveTokens` | Sup/TokenManager.cs:21-43 | The new state is `SaveStep`. The cache is replaced whole. The file is written, left as it was, or left cut off, depending on the write. |
| `Tokens.TokenManager.LoadTokens` | Sup/TokenManager.cs:48-69 | The result and the new state are those of `LoadStep`. |
| `Tokens.TokenManager.ClearTokens` | Sup/TokenManager.cs:74-86 | The cache is null. The file is gone unless deleting it threw. |
| `Tokens.TokenManager.RefreshAccessToken` | Sup/TokenManager.cs:91-125 | The result, the posted token and the new state are those of `RefreshStep`. |
| `Tokens.SaveThenLoad` | Sup/TokenManager.cs:21-54 | After a save with a non-empty access token, a load returns that pair from the cache. This holds whatever the file holds and whether or not the read would fail. |
| `Tokens.SaveIsBestEffort` | Sup/TokenManager.cs:23-42 | A save always sets the cache to the new record. The file ends with that record exactly when it was written, or already held it and was not touched. |
| `Tokens.SaveSurvivesRestart` | Sup/TokenManager.cs:36-62 | After a fully written save, a fresh process loads the same record from the file. |
| `Tokens.CacheShortCircuits` | Sup/TokenManager.cs:53-54 | A usable cached record is returned whatever the file holds and whether or not reading it fails, and the store is unchanged. |
| `Tokens.EmptyCachedAccessFallsThrough` | Sup/TokenManager.cs:53-62 | A cached record with an empty access token goes to the file. It is replaced by the file's record, or null is returned when there is no file. |
| `Tokens.LoadFailuresAreNull` | Sup/TokenManager.cs:57-68 | With no usable cache, a load with no file, a failing read or an unparsable file returns null and changes nothing. |
| `Tokens.ClearThenLoad` | Sup/TokenManager.cs:74-86 | After a clear that deletes the file, the store is empty and every load returns null. Clearing again changes nothing. |
| `Tokens.LeftoverFileRestoresSession` | Sup/TokenManager.cs:74-86 | When the delete fails the cache is still null, but the next load restores the record from the leftover file. |
| `Tokens.RefreshThenLoad` | Sup/TokenManager.cs:104-118 | After a successful refresh, a load returns the new pair. After a failed one, a record that was loadable before is still returned. |
| `Tokens.RefreshSurvivesRestart` | Sup/TokenManager.cs:113 | A refreshed pair whose file write completed is what a fresh process loads. |
| `Tokens.RefreshTokenRotation` | Sup/TokenManager.cs:111-115 | After a granted refresh, the saved refresh token is the server's value. It is the old one when the server sent null, and `""` when the server left the field out. |
| `Tokens.SaveThenLoadScenario` | Sup/TokenManager.cs:21-62 | After saving ("A1", "R1") at t0, a load returns {A1, R1, t0}. |
| `ForTokens.Attach` | Sup/ForTokens/AuthenticatedHttpClientHandler.cs:17-23 | When the loaded record is non-null with a non-empty access token, the header is `Bearer <that token>`, replacing whatever the request carried. Otherwise the request's own header is kept. |
| `ForTokens.SendStep` | Sup/ForTokens/AuthenticatedHttpClientHandler.cs:14-62 | A call makes one or two sends. A reply other than 401 comes back unchanged after one send, with no refresh. A 401 is refreshed exactly when the flag is clear. A resend happens exactly when that refresh succeeded, and it carries the refreshed access token. Otherwise the first response is returned. The flag ends set exactly when it was set or the resend threw. Without a refresh, the store is the first load's. With one, it is the store the refresh left. |
| `ForTokens.AuthenticatedHttpClientHandler.constructor` | Sup/ForTokens/AuthenticatedHttpClientHandler.cs:11-12 | The flag is clear and the lock is free. |
| `ForTokens.AuthenticatedHttpClientHandler.Send` | Sup/ForTokens/AuthenticatedHttpClientHandler.cs:14-62 | The lock is free on every exit. The reply, the headers sent, the flag and the store are those of `SendStep`. |
| `ForTokens.RunSendBound` | Sup/ForTokens/AuthenticatedHttpClientHandler.cs:26-61 | A run of n calls makes between n and 2n underlying sends. |
| `ForTokens.EveryUnauthorizedCallRefreshes` | Sup/ForTokens/AuthenticatedHttpClientHandler.cs:31-53 | While no resend throws, the flag stays clear, and the number of refreshes equals the number of calls whose first send got a 401. |
| `ForTokens.StuckFlagBlocksRefresh` | Sup/ForTokens/AuthenticatedHttpClientHandler.cs:34-58 | Once the flag is set, it stays set. No later call refreshes, and each call makes exactly one send. |
| `ForTokens.ThrowingResendEndsRefreshes` | Sup/ForTokens/AuthenticatedHttpClientHandler.cs:36-58 | A resend that throws makes its refresh the last one the handler runs. |
| `ForTokens.SendThenLoad` | Sup/ForTokens/AuthenticatedHttpClientHandler.cs:36-52 | After a call that resent, the next load returns the refreshed pair, which carries the granted access token. After a call whose refresh failed, the next load returns the record the call started with, if that record was usable. |
| `ForTokens.RefreshAndRetryScenario` | Sup/ForTokens/AuthenticatedHttpClientHandler.cs:17-61 | Sent with A1 and answered 401, then granted (A2, R2): the request is resent with A2, its answer is returned, and the store holds {A2, R2, t1}. |
| `ForTokens.FailedRefreshScenario` | Sup/ForTokens/AuthenticatedHttpClientHandler.cs:29-61 | Sent with A1 and answered 401, then the refresh call fails: the 401 is returned after that one send, and the store still holds {A1, R1, t0}. |
| `UriText.EscapeDataString` | Sup/MainChatWindow.axaml.cs:69 | The escaped query holds only unreserved characters and `%`. A string of unreserved characters is unchanged. The length grows at most twelvefold. |
| `UriText.DecodeEscapeDataString` | Sup/MainChatWindow.axaml.cs:69 | Percent- and UTF-8-decoding the escaped query gives the query back. |
| `UriText.IntToString` | Sup/MainChatWindow.axaml.cs:69 | The page number is written in decimal digits. A negative value gets a leading minus sign, though the handlers never pass one. |
| `UriText.IntToStringRoundTrip` | Sup/MainChatWindow.axaml.cs:69 | The written page number parses back to the page. |
| `MainChat.UrlRoundTrip` | Sup/MainChatWindow.axaml.cs:69 | From the URL string passed to `GetAsync`, exactly the query and the page that were requested are read back. |
| `MainChat.Usernames` | Sup/MainChatWindow.axaml.cs:97 | The selection fails exactly when an entry is null. Otherwise the list holds the page's user names in the server's order. |
| `MainChat.SearchStep` | Sup/MainChatWindow.axaml.cs:52-112 | A blank query sends nothing, empties the list, resets to page 0 of 1 with both buttons off, and keeps the recorded query. Any other query is recorded and sent with its page. Only a 401 touches the store, and it clears it, leaving the paging as set. A parsed page without null entries sets the total, Prev iff page > 0, Next iff page < total − 1 (an unchecked 32-bit subtraction), and the names in order. A null entry shows the network-error line and resets paging. An exception or a null body resets paging. |
| `MainChat.TypedStep` | Sup/MainChatWindow.axaml.cs:139-150 | A search starts only when the text differs from the recorded query, and always at page 0. Such a text that is not blank does start that search. |
| `MainChat.PrevStep` | Sup/MainChatWindow.axaml.cs:169-175 | Nothing happens on page 0, so no negative page is ever requested. Past page 0, a text that is not blank asks for page − 1. |
| `MainChat.NextStep` | Sup/MainChatWindow.axaml.cs:178-184 | Nothing happens on the last page, so every page asked for is below the server's page count. Before the last page, a text that is not blank asks for page + 1. The last page is found with the unchecked `_totalPages - 1`. The page asked for never overflows. It is below the count unless the count is `int.MinValue`. |
| `MainChat.MinValueTotalEnablesNext` | Sup/MainChatWindow.axaml.cs:117-119 | At a page count of `int.MinValue`, `_totalPages - 1` wraps, so Next is enabled and the click handler asks for a page beyond the count. |
| `MainChat.MainChatWindow.constructor` | Sup/MainChatWindow.axaml.cs:22-30 | The window starts on page 0 of 1 with an empty recorded query and both buttons off. |
| `MainChat.MainChatWindow.ResetPagination` | Sup/MainChatWindow.axaml.cs:123-130 | The window goes to page 0 of 1 with both buttons off, and nothing else changes. |
| `MainChat.MainChatWindow.UpdatePaginationInfo` | Sup/MainChatWindow.axaml.cs:115-120 | Prev is enabled iff the page is > 0, and Next iff the page is < total − 1, where the subtraction is unchecked 32-bit `int` arithmetic that wraps at `int.MinValue`. |
| `MainChat.MainChatWindow.PerformSearch` | Sup/MainChatWindow.axaml.cs:52-112 | The new window state, the token store and the request sent are those of `SearchStep`. |
| `MainChat.MainChatWindow.OnSearchUsers` | Sup/MainChatWindow.axaml.cs:139-150 | The result is that of `TypedStep`, and the page stays non-negative. |
| `MainChat.MainChatWindow.OnPrevPageClick` | Sup/MainChatWindow.axaml.cs:169-175 | The result is that of `PrevStep`, and the page stays non-negative. |
| `MainChat.MainChatWindow.OnNextPageClick` | Sup/MainChatWindow.axaml.cs:178-184 | The result is that of `NextStep`, and the page stays non-negative. |
| `MainChat.StalePrevButtonScenario` | Sup/MainChatWindow.axaml.cs:79-175 | After a failure status at page 0, Prev stays enabled on page 0, and a click on it requests nothing. |

## Left out

- MainChat.UrlRoundTrip: the round trip is about the URL string passed to `GetAsync`. It does not cover `System.Uri`'s removal of dot segments from the path. For the queries `.` and `..` that removal drops the query, so the server does not read it back. URI canonicalisation is not part of this model.
- Real HTTP, file-system and JSON calls are left out. They are replaced by their outcomes: status codes, parsed bodies, and "this step throws" flags.
- Console logging of the swallowed exceptions is left out.
- True concurrency and the `SemaphoreSlim` scheduling are left out. Calls are whole calls in sequence, and the lock is a field that records whether it is held.
- Cancellation tokens, the 30-second `HttpClient` timeout and the 300 ms debounce delay are left out.
- Because the debounce delay is left out, the fire-and-forget searches are modelled as running to completion in the order they start.
- `CreatedAt` is an opaque integer chosen by the caller of a save, not `DateTime.UtcNow`.
- ForTokens.AuthenticatedHttpClientHandler.Send: requires the lock to be free when a call starts. Calls are modelled one after another, so a caller that waits for the lock is not modelled.
- MainChat.MainChatWindow.PerformSearch: takes the authenticated client's final reply as an input. It does not run the handler model on the search request, so the two are composed only through the shared token store.
- A null `Username` inside a non-null entry is not modelled. Names are plain strings. Such a name does not throw; it only adds a null to the list.
- A failure while reading the body of an error status is not modelled. Such a body is buffered by `HttpClient` before `GetAsync` returns.
- A body that cannot be read in a refresh reply is folded into `BadJson`. Both cases throw inside the same `try`.
- `Uri.EscapeDataString` is modelled on Unicode scalar values. Lone UTF-16 surrogates cannot occur in a Dafny string, and the call's length limit is not modelled.
- Page labels, list-box message text, panel visibility, voice settings, audio capture and level metering are left out. They are UI and NAudio code with floating-point maths.
- The login and registration handlers of the main window are left out. Only the `AuthResponse` defaults are used, as the shape of a refresh reply.
- Application start-up is left out. Only the base URL constant is used.
