/**
 * The link store of the shortlink service and its four request handlers:
 * shorten, stats lookup, recent-links listing and redirect. The table is a
 * sequence of rows in insertion order that the handlers update in place.
 */
module Server {
  import opened Wrappers
  import opened Validation
  import opened Links

  /** How many extra codes the generator draws after a collision. */
  const MaxRetries: nat := 5
  /** The LIMIT of the recent-links listing. */
  const ListLimit: nat := 100

  const InvalidUrlError := "Invalid URL provided"
  const BadCharsetError := "Custom code can only contain letters, numbers, dashes, and underscores"
  const CodeInUseError := "Custom code already in use"
  const CreateFailedError := "Failed to create shortlink"
  const NotFoundError := "Shortlink not found"

  /** A handler's outcome: the JSON body of a 200 reply, or an error reply
      with its status (400, 404, 500) and message. */
  datatype Response<T> =
    | Ok(value: T)
    | BadRequest(error: string)
    | NotFound(error: string)
    | ServerError(error: string)

  /** The body of a successful shorten reply (the shortUrl string, built from
      request metadata, is not part of the model). */
  datatype Created = Created(shortCode: string, originalUrl: string)

  /** The body of a stats reply. */
  datatype LinkStats = LinkStats(shortCode: string, originalUrl: string, clicks: nat, createdAt: nat)

  function StatsOf(l: Link): LinkStats
  {
    LinkStats(l.shortCode, l.originalUrl, l.clicks, l.createdAt)
  }

  class LinkStore {
    /** The `links` table, oldest row first. */
    var rows: seq<Link>
    /** The next AUTOINCREMENT id. */
    var nextId: nat
    /** The CURRENT_TIMESTAMP a row inserted now receives. */
    var clock: nat

    /** The table schema's constraints together with the facts the store's
        counters keep: unique codes, a positive next id, ascending ids below `nextId`, and
        creation times in clock order, none after the clock. */
    ghost predicate Valid()
      reads this
    {
      1 <= nextId && UniqueCodes(rows) && IdsAscending(rows) && Chronological(rows) &&
      forall k :: 0 <= k < |rows| ==> 1 <= rows[k].id < nextId && rows[k].createdAt <= clock
    }

    /** A store over a freshly created, empty table. */
    constructor ()
      ensures Valid()
      ensures rows == [] && nextId == 1 && clock == 0
    {
      rows := [];
      nextId := 1;
      clock := 0;
    }

    /** Time passes between requests; the clock never goes back. */
    method AdvanceClock(elapsed: nat)
      requires Valid()
      modifies this
      ensures Valid()
      ensures clock == old(clock) + elapsed
      ensures rows == old(rows) && nextId == old(nextId)
    {
      clock := clock + elapsed;
    }

    /** INSERT INTO links (short_code, original_url) VALUES (?, ?): the id,
        the creation time and the zero click count come from the column
        defaults; a duplicate code violates UNIQUE and nothing is inserted. */
    method Insert(code: string, url: string) returns (ok: bool)
      requires Valid()
      modifies this
      ensures Valid() && clock == old(clock)
      ensures ok <==> !HasCode(old(rows), code)
      ensures ok ==> rows == old(rows) + [Link(old(nextId), code, url, clock, 0)] && nextId == old(nextId) + 1
      ensures !ok ==> rows == old(rows) && nextId == old(nextId)
    {
      if Find(rows, code).Some? {
        return false;
      }
      AppendNewCode(rows, Link(nextId, code, url, clock, 0));
      rows := rows + [Link(nextId, code, url, clock, 0)];
      nextId := nextId + 1;
      ok := true;
    }

    /** The generate-and-retry loop: `draw(k)` is the k-th code the random
        source hands out. The loop stops at the first draw no row has, or
        after MaxRetries retries, keeping the last draw even if it is taken. */
    method GenerateCode(draw: nat -> string) returns (code: string, attempts: nat)
      ensures attempts <= MaxRetries && code == draw(attempts)
      ensures forall k :: 0 <= k < attempts ==> HasCode(rows, draw(k))
      ensures attempts < MaxRetries ==> !HasCode(rows, code)
    {
      code := draw(0);
      attempts := 0;
      while attempts < MaxRetries
        invariant attempts <= MaxRetries && code == draw(attempts)
        invariant forall k :: 0 <= k < attempts ==> HasCode(rows, draw(k))
      {
        if Find(rows, code).None? {
          break;
        }
        code := draw(attempts + 1);
        attempts := attempts + 1;
      }
    }

    /** POST /api/shorten with body fields `url` and `customCode`. */
    method Shorten(url: Option<string>, customCode: Option<string>, isUri: string -> bool, draw: nat -> string)
      returns (r: Response<Created>)
      requires Valid()
      modifies this
      ensures Valid() && clock == old(clock)
      // a rejected or failed request leaves the table as it was
      ensures !r.Ok? ==> rows == old(rows) && nextId == old(nextId)
      ensures !UrlAccepted(url, isUri) ==> r == BadRequest(InvalidUrlError)
      ensures UrlAccepted(url, isUri) && Truthy(customCode) && !MatchesCodePattern(customCode.value) ==>
        r == BadRequest(BadCharsetError)
      ensures UrlAccepted(url, isUri) && Truthy(customCode) && MatchesCodePattern(customCode.value) ==>
        r == if HasCode(old(rows), customCode.value) then BadRequest(CodeInUseError)
             else Ok(Created(customCode.value, url.value))
      // without a custom code the reply is a generated code or the insert failure
      ensures UrlAccepted(url, isUri) && !Truthy(customCode) ==> r.Ok? || r == ServerError(CreateFailedError)
      ensures r.Ok? && !Truthy(customCode) ==>
        exists k :: 0 <= k <= MaxRetries && r.value.shortCode == draw(k) &&
          forall j :: 0 <= j < k ==> HasCode(old(rows), draw(j))
      ensures r.ServerError? ==> forall k :: 0 <= k <= MaxRetries ==> HasCode(old(rows), draw(k))
      // a success appends exactly one fresh row, which a lookup then finds
      ensures r.Ok? ==>
        url == Some(r.value.originalUrl) && nextId == old(nextId) + 1 &&
        rows == old(rows) + [Link(old(nextId), r.value.shortCode, r.value.originalUrl, clock, 0)]
      ensures r.Ok? ==> Stats(r.value.shortCode) == Ok(LinkStats(r.value.shortCode, r.value.originalUrl, 0, clock))
    {
      if !UrlAccepted(url, isUri) {
        return BadRequest(InvalidUrlError);
      }
      var code: string;
      if Truthy(customCode) {
        if !MatchesCodePattern(customCode.value) {
          return BadRequest(BadCharsetError);
        }
        if Find(rows, customCode.value).Some? {
          return BadRequest(CodeInUseError);
        }
        code := customCode.value;
      } else {
        var attempts;
        code, attempts := GenerateCode(draw);
      }
      var inserted := Insert(code, url.value);
      if !inserted {
        return ServerError(CreateFailedError);
      }
      FindUnique(rows, code, |rows| - 1);
      r := Ok(Created(code, url.value));
    }

    /** GET /api/stats/:shortCode: the stored fields of the row with that
        code, or not-found. */
    function Stats(code: string): (r: Response<LinkStats>)
      reads this
      requires Valid()
      ensures r.Ok? || r == NotFound(NotFoundError)
      ensures r.Ok? <==> HasCode(rows, code)
      ensures forall k :: 0 <= k < |rows| && rows[k].shortCode == code ==> r == Ok(StatsOf(rows[k]))
    {
      match Find(rows, code)
      case None => NotFound(NotFoundError)
      case Some(i) => Ok(StatsOf(rows[i]))
    }

    /** GET /api/links: at most ListLimit rows, newest first. */
    function RecentLinks(): (r: seq<Link>)
      reads this
      requires Valid()
      ensures |r| == Min(ListLimit, |rows|)
      ensures forall i, j :: 0 <= i < j < |r| ==> r[i].createdAt >= r[j].createdAt
      ensures forall l :: l in r ==> l in rows
      ensures forall i, j :: 0 <= i < j < |r| ==> r[i] != r[j]
      ensures |rows| <= ListLimit ==> forall l :: l in rows ==> l in r
      ensures forall l, k :: l in rows && l !in r && 0 <= k < |r| ==> l.createdAt <= r[k].createdAt
    {
      NewestFirstOrdered(rows, ListLimit);
      NewestFirstMembers(rows, ListLimit);
      NewestFirstSkipsOnlyOlder(rows, ListLimit);
      NewestFirst(rows, ListLimit)
    }

    /** GET /:shortCode: the stored URL to redirect to, after one more click
        is counted; a code no row has is not-found and changes nothing. */
    method Redirect(code: string) returns (location: Option<string>)
      requires Valid()
      modifies this
      ensures Valid() && nextId == old(nextId) && clock == old(clock)
      ensures location.None? <==> !HasCode(old(rows), code)
      ensures location.None? ==> rows == old(rows)
      ensures forall k :: 0 <= k < |old(rows)| && old(rows)[k].shortCode == code ==>
        location == Some(old(rows)[k].originalUrl) &&
        rows == old(rows)[k := old(rows)[k].(clicks := old(rows)[k].clicks + 1)]
    {
      var found := Find(rows, code);
      if found.None? {
        return None;
      }
      var k := found.value;
      var link := rows[k];
      IncrementOneRow(rows, code, k);
      ClicksUpdateKeepsOrder(rows, k, link.clicks + 1);
      rows := IncrementClicks(rows, code);
      location := Some(link.originalUrl);
    }
  }
  /** Custom codes on a fresh store: a good code is taken as given, and a
      second request for the same code is refused without adding a row. */
  method CustomCodeSession(isUri: string -> bool, draw: nat -> string)
    requires isUri("https://example.com/a/b?x=1") && isUri("https://example.org")
  {
    var store := new LinkStore();
    var url := "https://example.com/a/b?x=1";
    SampleCodes();
    assert UrlAccepted(Some(url), isUri) && Truthy(Some("my-link_1"));
    var custom := store.Shorten(Some(url), Some("my-link_1"), isUri, draw);
    assert custom == Ok(Created("my-link_1", url));
    assert store.rows[0].shortCode == "my-link_1";
    assert UrlAccepted(Some("https://example.org"), isUri);
    var taken := store.Shorten(Some("https://example.org"), Some("my-link_1"), isUri, draw);
    assert taken == BadRequest(CodeInUseError) && |store.rows| == 1;
  }

  /** A custom code with a space or '!' is refused and no row is added. */
  method BadCodeSession(isUri: string -> bool, draw: nat -> string)
    requires isUri("https://example.com")
  {
    var store := new LinkStore();
    SampleCodes();
    var bad := store.Shorten(Some("https://example.com"), Some("bad code!"), isUri, draw);
    assert bad == BadRequest(BadCharsetError) && store.rows == [];
  }

  /** A generated code on a fresh store is the first draw; two redirects to it
      count two clicks, and an unknown code is not found. */
  method RedirectSession(isUri: string -> bool, draw: nat -> string)
    requires isUri("https://example.com/a/b?x=1")
  {
    var store := new LinkStore();
    var url := "https://example.com/a/b?x=1";
    var generated := store.Shorten(Some(url), Some(""), isUri, draw);
    assert generated == Ok(Created(draw(0), url));
    assert store.rows[0].shortCode == draw(0);
    var first := store.Redirect(draw(0));
    assert store.rows[0].shortCode == draw(0);
    var second := store.Redirect(draw(0));
    assert second == Some(url);
    assert store.Stats(draw(0)) == Ok(LinkStats(draw(0), url, 2, 0));
  }
}
