/** The user search of the chat window (Sup/MainChatWindow.axaml.cs): the
    query gate, the paging state (`_currentPage`, `_totalPages`,
    `_currentSearchQuery` and the Prev/Next buttons' enabled flags), the
    request URL, and the forced logout on a 401.

    The text box, the list box and the HTTP call are inputs and fields: the
    text is the box's text after `?? string.Empty`, the reply is what the
    authenticated client's `GetAsync` produced, and the list box holds a
    `UserList`. Page labels and panel visibility are not modelled. */
module MainChat {
  import opened Runtime
  import opened Tokens
  import opened UriText

  /** `App.ApiBaseUrl`. */
  const ApiBaseUrl: string := "http://81.200.152.249:80/api/v1/"

  /** `UserDto`. */
  datatype UserDto = UserDto(id: int, username: string)

  /** The body of a success reply, as `SearchUsersResponse` deserialises it. */
  datatype SearchBody =
    | Page(users: Option<seq<Option<UserDto>>>, currentPage: int, totalItems: int, totalPages: Int32)
    | NullBody     // the literal `null`
    | Malformed    // deserialising throws

  /** What `GetAsync` on the search URL produces. */
  datatype SearchReply =
    | Unreachable                        // the call throws
    | Answered(status: int, body: SearchBody)

  /** What the list box shows. */
  datatype UserList =
    | Names(names: seq<string>)
    | SessionExpired       // the "session expired, log in again" line
    | SearchFailed(status: int)
    | NetworkErrorNotice   // the "network error" line

  /** The window's search state. */
  datatype Pager = Pager(currentPage: int, totalPages: Int32, query: string,
                         prevEnabled: bool, nextEnabled: bool, list: UserList)

  /** One search request: the query and the page asked for. */
  datatype Request = Request(query: string, page: int)

  /** The URL a request is sent to. */
  function Url(r: Request): string {
    ApiBaseUrl + "user/" + EscapeDataString(r.query) + "?page=" + IntToString(r.page) + "&size=8"
  }

  /** The position of the first `c` in `s`, or `|s|` when there is none. */
  function IndexOf(s: string, c: char): (k: nat)
    ensures k <= |s|
    ensures forall i :: 0 <= i < k ==> s[i] != c
    ensures k < |s| ==> s[k] == c
    decreases |s|
  {
    if s == [] then 0 else if s[0] == c then 0 else 1 + IndexOf(s[1..], c)
  }

  /** How a server reads a search URL: the request target after `user/` of
      the base URL. */
  function ParseUrl(url: string): Option<Request> {
    var prefix := ApiBaseUrl + "user/";
    if |url| < |prefix| || url[..|prefix|] != prefix then None else ParseTarget(url[|prefix|..])
  }

  /** The decoded path segment up to the first `?`, and the number between
      `page=` and `&size=8`. */
  function ParseTarget(target: string): Option<Request> {
    var k := IndexOf(target, '?');
    var params := if k < |target| then target[k + 1..] else "";
    if k == |target| || |params| < 12 || params[..5] != "page=" || params[|params| - 7..] != "&size=8" then None
    else
      match DecodeDataString(target[..k])
      case None => None
      case Some(query) =>
        match ParseInt(params[5..|params| - 7])
        case None => None
        case Some(page) => Some(Request(query, page))
  }

  /** The first `c` after a prefix free of `c` is the one that ends it. */
  lemma {:induction false} IndexOfAfter(prefix: string, c: char, suffix: string)
    requires forall i :: 0 <= i < |prefix| ==> prefix[i] != c
    ensures IndexOf(prefix + [c] + suffix, c) == |prefix|
    decreases |prefix|
  {
    if prefix != [] {
      assert (prefix + [c] + suffix)[1..] == prefix[1..] + [c] + suffix;
      IndexOfAfter(prefix[1..], c, suffix);
    }
  }

  /** The path segment and the parameters of a URL whose prefix is right. */
  lemma SplitsAtQuestionMark(escaped: string, params: string)
    requires forall i :: 0 <= i < |escaped| ==> escaped[i] == '%' || IsUnreserved(escaped[i])
    ensures var rest := escaped + "?" + params;
            && IndexOf(rest, '?') == |escaped|
            && rest[..|escaped|] == escaped
            && rest[|escaped| + 1..] == params
  {
    IndexOfAfter(escaped, '?', params);
  }

  lemma PageParameter(digits: string)
    ensures var params := "page=" + digits + "&size=8";
            && |params| >= 12 && params[..5] == "page=" && params[|params| - 7..] == "&size=8"
            && params[5..|params| - 7] == digits
  {
  }

  lemma TargetRoundTrip(r: Request)
    ensures ParseTarget(EscapeDataString(r.query) + "?" + ("page=" + IntToString(r.page) + "&size=8")) == Some(r)
  {
    var escaped := EscapeDataString(r.query);
    var params := "page=" + IntToString(r.page) + "&size=8";
    SplitsAtQuestionMark(escaped, params);
    PageParameter(IntToString(r.page));
    DecodeEscapeDataString(r.query);
    IntToStringRoundTrip(r.page);
  }

  /** The URL string handed to `GetAsync` carries exactly the query and page
      that were asked for: the escaping keeps `?` out of the path segment,
      and both parts decode. (`System.Uri` later removes a `.` or `..` path
      segment, so those two queries do not reach the server.) */
  lemma UrlRoundTrip(r: Request)
    ensures ParseUrl(Url(r)) == Some(r)
  {
    var prefix := ApiBaseUrl + "user/";
    var target := EscapeDataString(r.query) + "?" + ("page=" + IntToString(r.page) + "&size=8");
    assert Url(r) == prefix + target;
    assert (prefix + target)[..|prefix|] == prefix && (prefix + target)[|prefix|..] == target;
    TargetRoundTrip(r);
  }

  /** `ResetPagination`. */
  function Reset(p: Pager): Pager {
    p.(currentPage := 0, totalPages := 1, prevEnabled := false, nextEnabled := false)
  }

  /** `UpdatePaginationInfo`. */
  function UpdateInfo(p: Pager): Pager {
    p.(prevEnabled := p.currentPage > 0, nextEnabled := p.currentPage < Decrement(p.totalPages))
  }

  /** The user names of a page, in the server's order; `None` when an entry
      is `null`, whose `Username` the selection dereferences and throws on. */
  function Usernames(users: seq<Option<UserDto>>): (names: Option<seq<string>>)
    ensures names.None? <==> exists i :: 0 <= i < |users| && users[i].None?
    ensures names.Some? ==> |names.value| == |users|
    ensures names.Some? ==> forall i :: 0 <= i < |users| ==> users[i].Some? && names.value[i] == users[i].value.username
    decreases |users|
  {
    if users == [] then Some([])
    else match users[0]
      case None => None
      case Some(u) =>
        match Usernames(users[1..])
        case None => None
        case Some(rest) => Some([u.username] + rest)
  }

  /** The window's state, the token store's state and the request sent. */
  datatype SearchOutcome = SearchOutcome(pager: Pager, store: Store, sent: Option<Request>)

  /** `PerformSearchAsync(page)` with text box contents `text`. `deleteFails`
      is whether deleting the token file throws, should a 401 clear the store. */
  function SearchStep(p: Pager, s: Store, text: string, page: int, reply: SearchReply, deleteFails: bool): (o: SearchOutcome)
    // a blank query sends nothing, empties the list and resets paging, keeping the recorded query
    ensures IsNullOrWhiteSpace(text) ==> o == SearchOutcome(Pager(0, 1, p.query, false, false, Names([])), s, None)
    // any other query is recorded and sent, with the page asked for
    ensures !IsNullOrWhiteSpace(text) ==> o.sent == Some(Request(text, page)) && o.pager.query == text
    // the page ends as asked for, or reset to 0
    ensures o.pager.currentPage == page || o.pager.currentPage == 0
    // only a 401 touches the token store, and it clears it
    ensures o.store != s ==> o.sent.Some? && reply.Answered? && reply.status == Unauthorized && o.store == ClearStep(s, deleteFails)
    ensures o.sent.Some? && reply.Answered? && reply.status == Unauthorized ==>
              o.store == ClearStep(s, deleteFails) && o.pager.list == SessionExpired
    // a failure status keeps the page asked for and the rest of the paging as it was
    ensures o.sent.Some? && reply.Answered? && !IsSuccessStatusCode(reply.status) ==>
              && o.pager.currentPage == page && o.pager.totalPages == p.totalPages
              && o.pager.prevEnabled == p.prevEnabled && o.pager.nextEnabled == p.nextEnabled
    // a parsed page without null entries sets the total and the buttons, and lists the user names in order
    ensures o.sent.Some? && reply.Answered? && IsSuccessStatusCode(reply.status) && reply.body.Page?
            && Usernames(reply.body.users.GetOr([])).Some? ==>
              o.pager == Pager(page, reply.body.totalPages, text, page > 0, page < Decrement(reply.body.totalPages),
                               Names(Usernames(reply.body.users.GetOr([])).value))
    // a null entry throws in the name selection: the network-error line, and paging reset
    ensures o.sent.Some? && reply.Answered? && IsSuccessStatusCode(reply.status) && reply.body.Page?
            && Usernames(reply.body.users.GetOr([])).None? ==>
              o.pager == Pager(0, 1, text, false, false, NetworkErrorNotice)
    // an exception, or a success without a page, resets paging to page 0 of 1 with both buttons off
    ensures o.sent.Some? && (reply.Unreachable? || (IsSuccessStatusCode(reply.status) && !reply.body.Page?)) ==>
              o.pager.currentPage == 0 && o.pager.totalPages == 1 && !o.pager.prevEnabled && !o.pager.nextEnabled
  {
    if IsNullOrWhiteSpace(text) then
      SearchOutcome(Reset(p).(list := Names([])), s, None)
    else
      var asked := p.(query := text, currentPage := page);
      var sent := Some(Request(text, page));
      match reply
      case Unreachable =>
        SearchOutcome(Reset(asked).(list := NetworkErrorNotice), s, sent)
      case Answered(status, body) =>
        if status == Unauthorized then
          SearchOutcome(asked.(list := SessionExpired), ClearStep(s, deleteFails), sent)
        else if !IsSuccessStatusCode(status) then
          SearchOutcome(asked.(list := SearchFailed(status)), s, sent)
        else
          match body
          case Page(users, _, _, totalPages) =>
            var shown := UpdateInfo(asked.(totalPages := totalPages));
            (match Usernames(users.GetOr([]))
             case None => SearchOutcome(Reset(shown).(list := NetworkErrorNotice), s, sent)
             case Some(names) => SearchOutcome(shown.(list := Names(names)), s, sent))
          case NullBody =>
            SearchOutcome(Reset(asked).(list := Names([])), s, sent)
          case Malformed =>
            SearchOutcome(Reset(asked).(list := NetworkErrorNotice), s, sent)
  }

  /** `OnSearchUsersAsync` once its delay has passed. */
  function TypedStep(p: Pager, s: Store, text: string, reply: SearchReply, deleteFails: bool): (o: SearchOutcome)
    // a search starts only for text that differs from the recorded query, and always at page 0
    ensures text == p.query ==> o == SearchOutcome(p, s, None)
    ensures o.sent.Some? ==> text != p.query && o.sent == Some(Request(text, 0))
    // and it does start for such text unless the text is blank
    ensures text != p.query && !IsNullOrWhiteSpace(text) ==> o.sent == Some(Request(text, 0))
    ensures p.currentPage >= 0 ==> o.pager.currentPage >= 0
  {
    if text != p.query then SearchStep(p, s, text, 0, reply, deleteFails) else SearchOutcome(p, s, None)
  }

  /** `OnPrevPageClick`: the page before the current one, only past page 0. */
  function PrevStep(p: Pager, s: Store, text: string, reply: SearchReply, deleteFails: bool): (o: SearchOutcome)
    ensures p.currentPage <= 0 ==> o == SearchOutcome(p, s, None)
    // no negative page is ever asked for
    ensures o.sent.Some? ==> 0 <= o.sent.value.page == p.currentPage - 1
    // past page 0, non-blank text asks for the page before
    ensures p.currentPage > 0 && !IsNullOrWhiteSpace(text) ==> o.sent == Some(Request(text, p.currentPage - 1))
    ensures p.currentPage >= 0 ==> o.pager.currentPage >= 0
  {
    if p.currentPage > 0 then SearchStep(p, s, text, p.currentPage - 1, reply, deleteFails) else SearchOutcome(p, s, None)
  }

  /** `OnNextPageClick`: the page after the current one, only before the last. */
  function NextStep(p: Pager, s: Store, text: string, reply: SearchReply, deleteFails: bool): (o: SearchOutcome)
    ensures p.currentPage >= Decrement(p.totalPages) ==> o == SearchOutcome(p, s, None)
    // the page after never overflows, and lies below the server's page count unless that count is `int.MinValue`
    ensures o.sent.Some? ==> o.sent.value.page == p.currentPage + 1 <= 0x7FFF_FFFF
    ensures o.sent.Some? && p.totalPages != -0x8000_0000 ==> o.sent.value.page < p.totalPages
    // before the last page, non-blank text asks for the page after
    ensures p.currentPage < Decrement(p.totalPages) && !IsNullOrWhiteSpace(text) ==> o.sent == Some(Request(text, p.currentPage + 1))
    ensures p.currentPage >= 0 ==> o.pager.currentPage >= 0
  {
    if p.currentPage < Decrement(p.totalPages) then SearchStep(p, s, text, p.currentPage + 1, reply, deleteFails) else SearchOutcome(p, s, None)
  }

  /** `MainChatWindow`, restricted to its search state. */
  class MainChatWindow {
    var currentPage: int
    var totalPages: Int32
    var currentSearchQuery: string
    var prevEnabled: bool
    var nextEnabled: bool
    var users: UserList
    const tokens: TokenManager

    function State(): Pager
      reads this
    {
      Pager(currentPage, totalPages, currentSearchQuery, prevEnabled, nextEnabled, users)
    }

    /** Every page the window can be on is non-negative. */
    ghost predicate Valid()
      reads this
    {
      currentPage >= 0
    }

    constructor(tokens: TokenManager)
      ensures Valid() && State() == Pager(0, 1, "", false, false, Names([])) && this.tokens == tokens
    {
      currentPage, totalPages, currentSearchQuery := 0, 1, "";
      prevEnabled, nextEnabled, users := false, false, Names([]);
      this.tokens := tokens;
      new;
      ResetPagination();
    }

    method ResetPagination()
      modifies this
      ensures State() == Reset(old(State()))
    {
      currentPage := 0;
      totalPages := 1;
      prevEnabled := false;
      nextEnabled := false;
    }

    method UpdatePaginationInfo()
      modifies this
      ensures State() == UpdateInfo(old(State()))
    {
      prevEnabled := currentPage > 0;
      nextEnabled := currentPage < Decrement(totalPages);
    }

    method PerformSearch(text: string, page: int, reply: SearchReply, deleteFails: bool) returns (sent: Option<Request>)
      modifies this, tokens
      ensures SearchOutcome(State(), tokens.State(), sent)
              == SearchStep(old(State()), old(tokens.State()), text, page, reply, deleteFails)
    {
      if IsNullOrWhiteSpace(text) {
        users := Names([]);
        ResetPagination();
        return None;
      }
      currentSearchQuery := text;
      currentPage := page;
      sent := Some(Request(text, page));
      match reply {
        case Unreachable =>
          users := NetworkErrorNotice;
          ResetPagination();
        case Answered(status, body) =>
          if status == Unauthorized {
            tokens.ClearTokens(deleteFails);
            users := SessionExpired;
            return;
          }
          if !IsSuccessStatusCode(status) {
            users := SearchFailed(status);
            return;
          }
          match body {
            case Page(pageUsers, _, _, pages) =>
              totalPages := pages;
              UpdatePaginationInfo();
              var names := Usernames(pageUsers.GetOr([]));
              if names.None? {
                // the exception leaves the selection for the catch
                users := NetworkErrorNotice;
                ResetPagination();
              } else {
                users := Names(names.value);
              }
            case NullBody =>
              ResetPagination();
              users := Names([]);
            case Malformed =>
              users := NetworkErrorNotice;
              ResetPagination();
          }
      }
    }

    method OnSearchUsers(text: string, reply: SearchReply, deleteFails: bool) returns (sent: Option<Request>)
      requires Valid()
      modifies this, tokens
      ensures Valid()
      ensures SearchOutcome(State(), tokens.State(), sent)
              == TypedStep(old(State()), old(tokens.State()), text, reply, deleteFails)
    {
      sent := None;
      if text != currentSearchQuery {
        sent := PerformSearch(text, 0, reply, deleteFails);
      }
    }

    method OnPrevPageClick(text: string, reply: SearchReply, deleteFails: bool) returns (sent: Option<Request>)
      requires Valid()
      modifies this, tokens
      ensures Valid()
      ensures SearchOutcome(State(), tokens.State(), sent)
              == PrevStep(old(State()), old(tokens.State()), text, reply, deleteFails)
    {
      sent := None;
      if currentPage > 0 {
        sent := PerformSearch(text, currentPage - 1, reply, deleteFails);
      }
    }

    method OnNextPageClick(text: string, reply: SearchReply, deleteFails: bool) returns (sent: Option<Request>)
      requires Valid()
      modifies this, tokens
      ensures Valid()
      ensures SearchOutcome(State(), tokens.State(), sent)
              == NextStep(old(State()), old(tokens.State()), text, reply, deleteFails)
    {
      sent := None;
      if currentPage < Decrement(totalPages) {
        sent := PerformSearch(text, currentPage + 1, reply, deleteFails);
      }
    }
  }

  /** A page count of `int.MinValue` is accepted from the server as it is,
      and the unchecked `_totalPages - 1` wraps to `int.MaxValue`: Next is
      enabled, and a click asks for the page after, beyond the count. */
  lemma MinValueTotalEnablesNext(p: Pager, s: Store, text: string, reply: SearchReply, deleteFails: bool)
    requires p.totalPages == -0x8000_0000 && 0 <= p.currentPage < 0x7FFF_FFFF
    requires !IsNullOrWhiteSpace(text)
    ensures UpdateInfo(p).nextEnabled
    ensures NextStep(p, s, text, reply, deleteFails).sent == Some(Request(text, p.currentPage + 1))
    ensures p.currentPage + 1 > p.totalPages
  {
  }

  // ----- A client of the class -----

  /** The buttons' flags are not kept in step with the page: a failure status
      after the page was reset to 0 leaves Prev enabled on page 0, and only the
      click handler's own guard stops it from asking for page -1. */
  method StalePrevButtonScenario(existing: Option<FileText>) returns (page: int, prevEnabled: bool, sent: Option<Request>)
    ensures page == 0 && prevEnabled && sent == None
  {
    var tokens := new TokenManager(existing);
    var window := new MainChatWindow(tokens);
    var three := Answered(200, Page(Some([Some(UserDto(1, "ann")), Some(UserDto(2, "abe"))]), 0, 20, 3));
    assert "a"[0] == 'a' && "ab"[0] == 'a' && !IsWhiteSpace('a');
    sent := window.OnSearchUsers("a", three, false);
    sent := window.OnNextPageClick("a", three, false);
    assert window.currentPage == 1 && window.prevEnabled;
    sent := window.OnSearchUsers("ab", Answered(500, NullBody), false);
    page, prevEnabled := window.currentPage, window.prevEnabled;
    sent := window.OnPrevPageClick("ab", three, false);
  }
}
