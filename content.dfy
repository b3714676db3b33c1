/** The content script. On a profile's about page it extracts the "Account
    based in" country and reports it to the service worker; on the feed it
    resolves each item's author to a country (cache first, then a lookup
    through the service worker) and hides the items whose country matches
    the block list. The page (items, links, text) is given to the methods as
    values; overlays and observers are not modelled. */
module Content {
  import opened Messages
  import opened Text

  // ---------------------------------------------------------------------------
  // Matching a location against the block list

  /** A block-list entry matches a location when, ignoring case, either one
      contains the other. */
  predicate Matches(location: string, entry: string)
    ensures Lower(location) == Lower(entry) ==> Matches(location, entry)
    ensures entry == "" ==> Matches(location, entry)
  {
    ContainsTrivial(Lower(location), Lower(entry));
    Contains(Lower(location), Lower(entry)) || Contains(Lower(entry), Lower(location))
  }

  /** `entry` is the first element of `blocked` matching `location`, at `i`. */
  predicate FirstMatchAt(location: string, blocked: seq<string>, i: int) {
    && 0 <= i < |blocked|
    && Matches(location, blocked[i])
    && forall j :: 0 <= j < i ==> !Matches(location, blocked[j])
  }

  /** `blockedLocations.find(...)`: the first matching entry, if any. */
  function FindMatch(location: string, blocked: seq<string>): (r: Option<string>)
    ensures r.None? <==> forall i :: 0 <= i < |blocked| ==> !Matches(location, blocked[i])
    ensures r.Some? ==> exists i :: FirstMatchAt(location, blocked, i) && blocked[i] == r.value
  {
    if blocked == [] then None
    else if Matches(location, blocked[0]) then
      assert FirstMatchAt(location, blocked, 0);
      Some(blocked[0])
    else
      var r := FindMatch(location, blocked[1..]);
      assert r.Some? ==> exists i :: FirstMatchAt(location, blocked, i) && blocked[i] == r.value by {
        if r.Some? {
          var i :| FirstMatchAt(location, blocked[1..], i) && blocked[1..][i] == r.value;
          assert FirstMatchAt(location, blocked, i + 1);
        }
      }
      assert r.None? ==> forall i :: 0 <= i < |blocked| ==> !Matches(location, blocked[i]) by {
        if r.None? {
          forall i | 0 < i < |blocked| ensures !Matches(location, blocked[i]) {
            assert blocked[i] == blocked[1..][i - 1];
          }
        }
      }
      r
  }

  /** `isLocationBlocked`: an empty location or an empty list blocks nothing;
      otherwise the first matching entry decides, and (as `!!` turns an empty
      string into `false`) it blocks only when it is not empty. */
  function IsLocationBlocked(location: string, blocked: seq<string>): (b: bool)
    ensures location == "" || blocked == [] ==> !b
    ensures b ==> exists i :: 0 <= i < |blocked| && blocked[i] != "" && Matches(location, blocked[i])
  {
    if location == "" || blocked == [] then false
    else
      match FindMatch(location, blocked)
      case None => false
      case Some(entry) => entry != ""
  }

  /** With no empty entry in the list, an item is blocked exactly when its
      location is not empty and some entry matches it. */
  lemma IsLocationBlockedIff(location: string, blocked: seq<string>)
    requires forall i :: 0 <= i < |blocked| ==> blocked[i] != ""
    ensures IsLocationBlocked(location, blocked) <==>
      location != "" && exists i :: 0 <= i < |blocked| && Matches(location, blocked[i])
  {
    if location != "" && blocked != [] {
      var r := FindMatch(location, blocked);
      if r.Some? {
        var i :| FirstMatchAt(location, blocked, i) && blocked[i] == r.value;
        assert r.value != "";
      }
    }
  }

  /** Matching is symmetric: a one-entry list holding `b` blocks `a` exactly
      when a one-entry list holding `a` blocks `b`. */
  lemma MatchingIsSymmetric(a: string, b: string)
    ensures IsLocationBlocked(a, [b]) == IsLocationBlocked(b, [a])
  {
    assert Matches(a, b) == Matches(b, a);
    if a != "" && b != "" && Matches(a, b) {
      assert FindMatch(a, [b]) == Some(b);
      assert FindMatch(b, [a]) == Some(a);
    }
  }

  /** Matching ignores case on both sides. */
  lemma MatchingIgnoresCase(location: string, entry: string)
    ensures Matches(location, entry) == Matches(Lower(location), entry) == Matches(location, Lower(entry))
  {
    LowerIdempotent(location);
    LowerIdempotent(entry);
  }

  // ---------------------------------------------------------------------------
  // The author's handle

  predicate IsHandleChar(c: char) {
    'a' <= c <= 'z' || 'A' <= c <= 'Z' || '0' <= c <= '9' || c == '_'
  }

  /** A non-empty run of letters, digits and underscores. */
  predicate IsHandle(s: string) {
    s != [] && forall i :: 0 <= i < |s| ==> IsHandleChar(s[i])
  }

  /** An href of the form `/handle`, the shape `^\/[a-zA-Z0-9_]+$` accepts. */
  predicate IsHandleHref(href: string)
    ensures IsHandleHref(href) ==> |href| >= 2 && href[0] == '/' && '/' !in href[1..]
  {
    href != [] && href[0] == '/' && IsHandle(href[1..])
  }

  /** `username` comes from the first link whose href has the shape
      `/handle`. */
  predicate FirstHandle(hrefs: seq<string>, username: string) {
    exists i :: 0 <= i < |hrefs| && hrefs[i] == "/" + username
      && forall j :: 0 <= j < i ==> !IsHandleHref(hrefs[j])
  }

  /** `extractUsername`: the first link of the item whose href has the
      shape `/handle`, without its slash; none when no link has it. */
  method ExtractUsername(hrefs: seq<string>) returns (username: Option<string>)
    ensures username.Some? ==> IsHandle(username.value)
    ensures username.Some? ==> FirstHandle(hrefs, username.value)
    ensures username.None? <==> forall i :: 0 <= i < |hrefs| ==> !IsHandleHref(hrefs[i])
  {
    var i := 0;
    while i < |hrefs|
      invariant 0 <= i <= |hrefs|
      invariant forall j :: 0 <= j < i ==> !IsHandleHref(hrefs[j])
    {
      var href := hrefs[i];
      if IsHandleHref(href) {
        assert href == "/" + href[1..];
        return Some(href[1..]);
      }
      i := i + 1;
    }
    return None;
  }

  // ---------------------------------------------------------------------------
  // The about page: "Account based in ..."

  /** The marker, lower-cased; the search ignores case. */
  const MARKER: string := "account based in"

  /** Retries of the about-page extraction, 500 ms apart. */
  const MAX_RETRIES: nat := 15

  /** The length of the run of white space starting at `i`. */
  function SpaceRun(text: string, i: nat): (w: nat)
    requires i <= |text|
    ensures i + w <= |text|
    ensures forall k :: i <= k < i + w ==> IsSpace(text[k])
    ensures i + w == |text| || !IsSpace(text[i + w])
    decreases |text| - i
  {
    if i < |text| && IsSpace(text[i]) then 1 + SpaceRun(text, i + 1) else 0
  }

  /** Where the line containing index `i` ends. */
  function LineEnd(text: string, i: nat): (e: nat)
    requires i <= |text|
    ensures i <= e <= |text|
    ensures e == |text| || text[e] == '\n'
    ensures forall k :: i <= k < e ==> text[k] != '\n'
    decreases |text| - i
  {
    if i == |text| || text[i] == '\n' then i else LineEnd(text, i + 1)
  }

  /** The pattern `Account based in\s+([^\n]+)` can match at `p` with a
      capture that is not blank: the marker, in any case, then white space,
      then something that is not white space. (A match whose capture is
      blank leaves only white space after it, and trims to nothing.) */
  predicate MarkerAt(text: string, p: int)
    ensures MarkerAt(text, p) ==>
      var q := p + |MARKER|;
      && 0 <= p && q < |text| && IsSpace(text[q])
      && q + SpaceRun(text, q) < |text| && !IsSpace(text[q + SpaceRun(text, q)])
  {
    && 0 <= p && p + |MARKER| <= |text|
    && Lower(text[p..p + |MARKER|]) == MARKER
    && SpaceRun(text, p + |MARKER|) >= 1
    && p + |MARKER| + SpaceRun(text, p + |MARKER|) < |text|
  }

  /** The left-most position at or after `from` where the pattern matches. */
  function FindMarker(text: string, from: nat): (r: Option<nat>)
    requires from <= |text|
    ensures r.Some? ==> from <= r.value && MarkerAt(text, r.value)
    ensures r.Some? ==> forall q :: from <= q < r.value ==> !MarkerAt(text, q)
    ensures r.None? ==> forall q :: from <= q ==> !MarkerAt(text, q)
    decreases |text| - from
  {
    if MarkerAt(text, from) then Some(from)
    else if from == |text| then None
    else FindMarker(text, from + 1)
  }

  /** The trimmed rest of a line that starts with something other than
      white space is not empty, starts the same way and stays on the line. */
  lemma TrimmedCapture(line: string)
    requires line != [] && !IsSpace(line[0])
    requires forall k :: 0 <= k < |line| ==> line[k] != '\n'
    ensures var c := Trim(line);
      && c != "" && !IsSpace(c[0])
      && forall k :: 0 <= k < |c| ==> c[k] != '\n'
  {
    var c := Trim(line);
    var i :| IsTrimOf(line, c, i);
    assert forall k :: 0 <= k < |c| ==> c[k] == line[i + k];
  }

  /** The country the page states: the capture of the left-most match of
      the marker and its white space, that is the rest of the line, trimmed. Pattern 2 of the
      source (the same marker after "Date joined") is tried only when this
      one finds nothing, and then it finds nothing either. */
  function ExtractCountry(text: string): (country: Option<string>)
    ensures country.Some? <==> exists p :: MarkerAt(text, p)
    ensures country.Some? ==> country.value != "" && !IsSpace(country.value[0])
    ensures country.Some? ==> forall k :: 0 <= k < |country.value| ==> country.value[k] != '\n'
  {
    match FindMarker(text, 0)
    case None => None
    case Some(p) => Some(CaptureAt(text, p))
  }

  /** The trimmed capture of a match at `p`: the rest of the line after
      the marker and its white space. */
  function CaptureAt(text: string, p: nat): (c: string)
    requires MarkerAt(text, p)
    ensures c != "" && !IsSpace(c[0])
    ensures forall k :: 0 <= k < |c| ==> c[k] != '\n'
  {
    var start := p + |MARKER| + SpaceRun(text, p + |MARKER|);
    var line := text[start..LineEnd(text, start)];
    TrimmedCapture(line);
    Trim(line)
  }

  /** The marker in any case, one space and then a character that is not
      white space: a match of the pattern, with one space before the
      capture. */
  lemma MarkerWithOneSpace(text: string, p: nat)
    requires p + |MARKER| + 1 < |text| && Lower(text[p..p + |MARKER|]) == MARKER
    requires text[p + |MARKER|] == ' ' && !IsSpace(text[p + |MARKER| + 1])
    ensures MarkerAt(text, p) && SpaceRun(text, p + |MARKER|) == 1
  {
    assert SpaceRun(text, p + |MARKER| + 1) == 0;
  }

  /** A match with no match before it is the left-most one. */
  lemma FindsFirstMarker(text: string, p: nat)
    requires MarkerAt(text, p) && forall q :: 0 <= q < p ==> !MarkerAt(text, q)
    ensures FindMarker(text, 0) == Some(p)
  {
  }

  /** The line that starts at `start` ends where `country` does, when the
      text goes on with a line break or not at all. */
  lemma LineHoldsCountry(text: string, start: nat, country: string)
    requires start + |country| <= |text| && text[start..start + |country|] == country
    requires forall k :: 0 <= k < |country| ==> country[k] != '\n'
    requires start + |country| == |text| || text[start + |country|] == '\n'
    ensures LineEnd(text, start) == start + |country|
  {
  }

  /** The page states the capture of its left-most match. */
  lemma ExtractsLeftmostCapture(text: string, p: nat)
    requires MarkerAt(text, p) && forall q :: 0 <= q < p ==> !MarkerAt(text, q)
    ensures ExtractCountry(text) == Some(CaptureAt(text, p))
  {
    FindsFirstMarker(text, p);
  }

  /** When the match at `p` is followed by one space, a trimmed one-line
      `country` after it is its capture. */
  lemma CaptureIsRestOfLine(text: string, p: nat, country: string)
    requires MarkerAt(text, p) && SpaceRun(text, p + |MARKER|) == 1
    requires country != "" && !IsSpace(country[0]) && !IsSpace(country[|country| - 1])
    requires forall k :: 0 <= k < |country| ==> country[k] != '\n'
    requires p + |MARKER| + 1 + |country| <= |text|
    requires text[p + |MARKER| + 1..p + |MARKER| + 1 + |country|] == country
    requires p + |MARKER| + 1 + |country| == |text| || text[p + |MARKER| + 1 + |country|] == '\n'
    ensures CaptureAt(text, p) == country
  {
    var start := p + |MARKER| + SpaceRun(text, p + |MARKER|);
    LineHoldsCountry(text, start, country);
    var line := text[start..LineEnd(text, start)];
    assert line == country;
    TrimOfTrimmed(line);
  }

  /** The marker as the page writes it, lower-cased. */
  lemma LowerOfMarker()
    ensures Lower("Account based in") == MARKER
  {
  }

  /** Where the line "Account based in <country>" sits in a page text. */
  lemma StatedLine(before: string, country: string, after: string)
    requires country != ""
    ensures var text := before + "Account based in " + country + after;
      var p := |before|;
      && p + 17 + |country| <= |text|
      && text[p..p + 16] == "Account based in" && text[p + 16] == ' ' && text[p + 17] == country[0]
      && text[p + 17..p + 17 + |country|] == country
      && (p + 17 + |country| < |text| ==> text[p + 17 + |country|] == after[0])
  {
    var line := "Account based in " + country + after;
    var text := before + line;
    assert text == before + "Account based in " + country + after;
    var p := |before|;
    assert forall k :: 0 <= k < |line| ==> text[p + k] == line[k];
    assert text[p..p + 16] == line[..16];
    assert text[p + 17..p + 17 + |country|] == line[17..17 + |country|];
  }

  /** An about page whose text has the line "Account based in <country>",
      with no earlier match of the pattern, yields that country: the rest
      of the line, for any country neither blank at its ends nor spanning
      lines. */
  lemma ExtractsStatedCountry(before: string, country: string, after: string)
    requires country != "" && !IsSpace(country[0]) && !IsSpace(country[|country| - 1])
    requires forall k :: 0 <= k < |country| ==> country[k] != '\n'
    requires after == "" || after[0] == '\n'
    requires var text := before + "Account based in " + country + after;
      forall q :: 0 <= q < |before| ==> !MarkerAt(text, q)
    ensures ExtractCountry(before + "Account based in " + country + after) == Some(country)
  {
    var text := before + "Account based in " + country + after;
    var p := |before|;
    StatedLine(before, country, after);
    LowerOfMarker();
    MarkerWithOneSpace(text, p);
    ExtractsLeftmostCapture(text, p);
    CaptureIsRestOfLine(text, p, country);
  }

  /** The about-page extraction: one attempt now and then one every 500 ms,
      until the country is found or `MAX_RETRIES` attempts have failed. */
  class AboutPage {
    var retryCount: nat
    /** The `countryDataExtracted` messages sent so far. */
    var sent: seq<Option<string>>

    /** At most one message is ever sent, and until it is, fewer than
        `MAX_RETRIES` attempts have been made, so another one is due. */
    ghost predicate Valid()
      reads this
    {
      retryCount <= MAX_RETRIES && |sent| <= 1 && (sent == [] ==> retryCount < MAX_RETRIES)
    }

    constructor ()
      ensures Valid() && retryCount == 0 && sent == []
    {
      retryCount := 0;
      sent := [];
    }

    /** `extractCountryData`, run by its timer; it is due only while nothing
        has been sent. A found country is sent; after the last failed
        attempt `null` is sent; otherwise another attempt is scheduled. */
    method ExtractCountryData(pageText: string)
      requires Valid() && sent == []
      modifies this
      ensures Valid() && retryCount == old(retryCount) + 1
      ensures var c := ExtractCountry(pageText);
        && (c.Some? ==> sent == [c])
        && (c.None? && retryCount < MAX_RETRIES ==> sent == [])
        && (c.None? && retryCount == MAX_RETRIES ==> sent == [None])
    {
      retryCount := retryCount + 1;
      var country := ExtractCountry(pageText);
      if country.Some? {
        sent := sent + [country];
      } else if retryCount < MAX_RETRIES {
        // setTimeout(extractCountryData, 500)
      } else {
        sent := sent + [None];
      }
    }
  }

  // ---------------------------------------------------------------------------
  // The feed

  /** A feed item: its identity and the hrefs of its links that start with
      a slash, in document order. */
  datatype Item = Item(id: nat, hrefs: seq<string>)

  /** What processing an item came to. */
  datatype Outcome =
    | Skipped
    | NoUsername
    | NoCountry(username: string)
    | Allowed(username: string, country: string)
    | Hidden(username: string, country: string)

  /** A message from the popup. */
  datatype PopupMessage =
    | ToggleFilter(enabled: bool)
    | ToggleFetching(enabled: bool)
    | UpdateLocations(locations: seq<string>)
    | OtherAction

  /** The cache holds a truthy country under `key`. */
  predicate CachedAt(cache: map<string, string>, key: string) {
    key in cache && cache[key] != ""
  }

  /** `response && response.country`: the country of a reply, when truthy. */
  function RepliedCountry(response: Option<Reply>): (c: Option<string>)
    ensures c.Some? <==> response.Some? && response.value.country.Some? && response.value.country.value != ""
    ensures c.Some? ==> c == response.value.country
  {
    if response.Some? && response.value.country.Some? && response.value.country.value != "" then
      response.value.country
    else None
  }

  /** How `getCountryForUser` settles `username` against `cache`: a truthy
      country cached under the lower-cased username is the answer and nothing
      is asked; with fetching paused nothing is asked and there is no answer;
      otherwise the service worker is asked and its reply, `response`, is the
      answer, cached when truthy. `cache'` is the cache afterwards. */
  predicate Resolves(cache: map<string, string>, fetching: bool, username: string, response: Option<Reply>,
                     country: Option<string>, asked: bool, cache': map<string, string>)
  {
    var key := Lower(username);
    if CachedAt(cache, key) then
      country == Some(cache[key]) && !asked && cache' == cache
    else if !fetching then
      country == None && !asked && cache' == cache
    else
      && asked && country == RepliedCountry(response)
      && cache' == (if country.Some? then cache[key := country.value] else cache)
  }

  /** Once a username has an answer, looking it up again answers the same
      from the cache, whatever the flag and the reply, and asks nothing. */
  lemma AnsweredThenCached(cache: map<string, string>, fetching: bool, username: string, response: Option<Reply>,
                           country: string, asked: bool, cache': map<string, string>,
                           fetching2: bool, response2: Option<Reply>,
                           country2: Option<string>, asked2: bool, cache'': map<string, string>)
    requires Resolves(cache, fetching, username, response, Some(country), asked, cache')
    requires Resolves(cache', fetching2, username, response2, country2, asked2, cache'')
    ensures country2 == Some(country) && !asked2 && cache'' == cache'
  {
    assert CachedAt(cache', Lower(username)) && cache'[Lower(username)] == country;
  }

  /** The feed page's state. */
  class FeedFilter {
    var isEnabled: bool
    var isFetchingEnabled: bool
    var blockedLocations: seq<string>
    /** The items already processed, by identity. */
    var processedTweets: set<nat>
    /** Countries by lower-cased username. */
    var userCountryCache: map<string, string>

    constructor ()
      ensures !isEnabled && isFetchingEnabled && blockedLocations == []
      ensures processedTweets == {} && userCountryCache == map[]
    {
      isEnabled := false;
      isFetchingEnabled := true;
      blockedLocations := [];
      processedTweets := {};
      userCountryCache := map[];
    }

    /** The settings read from storage at start-up; a missing one leaves the
        filter off, fetching on, the list and the cache empty. `sweep` says
        whether the items already on the page are processed now. */
    method LoadSettings(enabled: Option<bool>, fetchingEnabled: Option<bool>,
                        locations: Option<seq<string>>, cache: Option<map<string, string>>)
      returns (sweep: bool)
      modifies this
      ensures isEnabled == (enabled == Some(true))
      ensures isFetchingEnabled == (fetchingEnabled != Some(false))
      ensures blockedLocations == (if locations.Some? then locations.value else [])
      ensures userCountryCache == (if cache.Some? then cache.value else map[])
      ensures processedTweets == old(processedTweets)
      ensures sweep == isEnabled
    {
      isEnabled := enabled == Some(true);
      isFetchingEnabled := fetchingEnabled != Some(false);
      blockedLocations := if locations.Some? then locations.value else [];
      userCountryCache := if cache.Some? then cache.value else map[];
      sweep := isEnabled;
    }

    /** The popup's messages. Turning the filter on starts a sweep but keeps
        the processed set, so items seen while it was on are not processed
        again; a new block list while the filter is on forgets the processed
        items and sweeps again. */
    method HandleMessage(msg: PopupMessage) returns (sweep: bool)
      modifies this
      ensures msg.ToggleFilter? ==> isEnabled == msg.enabled && sweep == msg.enabled
      ensures !msg.ToggleFilter? ==> isEnabled == old(isEnabled)
      ensures msg.ToggleFetching? ==> isFetchingEnabled == msg.enabled
      ensures !msg.ToggleFetching? ==> isFetchingEnabled == old(isFetchingEnabled)
      ensures msg.UpdateLocations? ==> blockedLocations == msg.locations && sweep == isEnabled
      ensures !msg.UpdateLocations? ==> blockedLocations == old(blockedLocations)
      ensures processedTweets == if msg.UpdateLocations? && isEnabled then {} else old(processedTweets)
      ensures userCountryCache == old(userCountryCache)
      ensures msg.ToggleFetching? || msg.OtherAction? ==> !sweep
    {
      sweep := false;
      match msg
      case ToggleFilter(enabled) =>
        isEnabled := enabled;
        sweep := enabled;
      case ToggleFetching(enabled) =>
        isFetchingEnabled := enabled;
      case UpdateLocations(locations) =>
        blockedLocations := locations;
        if isEnabled {
          processedTweets := {};
          sweep := true;
        }
      case OtherAction =>
    }

    /** `getCountryForUser`: a truthy cached country under the lower-cased
        username is returned without asking; with fetching paused nothing
        is asked and nothing returned; otherwise the service worker is asked
        (`asked`) and its reply is `response`, whose truthy country is
        cached and returned. */
    method GetCountryForUser(username: string, response: Option<Reply>)
      returns (country: Option<string>, asked: bool)
      modifies this`userCountryCache
      ensures Resolves(old(userCountryCache), isFetchingEnabled, username, response, country, asked, userCountryCache)
      ensures country.Some? ==>
        CachedAt(userCountryCache, Lower(username)) && userCountryCache[Lower(username)] == country.value
    {
      var key := Lower(username);
      if key in userCountryCache && userCountryCache[key] != "" {
        return Some(userCountryCache[key]), false;
      }
      if !isFetchingEnabled {
        return None, false;
      }
      asked := true;
      country := RepliedCountry(response);
      if country.Some? {
        userCountryCache := userCountryCache[key := country.value];
      }
    }

    /** `processTweet`: an item is processed once, and only while the filter
        is on. It is marked before its author is looked up; it is hidden
        exactly when the author's country is found and blocked. */
    method ProcessTweet(item: Item, response: Option<Reply>) returns (outcome: Outcome, asked: bool)
      modifies this`processedTweets, this`userCountryCache
      ensures old(item.id in processedTweets) || !isEnabled ==>
        && outcome == Skipped && !asked
        && processedTweets == old(processedTweets) && userCountryCache == old(userCountryCache)
      ensures old(item.id !in processedTweets) && isEnabled ==>
        outcome != Skipped && processedTweets == old(processedTweets) + {item.id}
      ensures outcome == NoUsername <==>
        outcome != Skipped && forall i :: 0 <= i < |item.hrefs| ==> !IsHandleHref(item.hrefs[i])
      ensures outcome.NoUsername? ==> !asked && userCountryCache == old(userCountryCache)
      ensures outcome.NoCountry? || outcome.Allowed? || outcome.Hidden? ==>
        && IsHandle(outcome.username) && FirstHandle(item.hrefs, outcome.username)
        && Resolves(old(userCountryCache), isFetchingEnabled, outcome.username, response,
                    if outcome.NoCountry? then None else Some(outcome.country), asked, userCountryCache)
      ensures outcome.Allowed? || outcome.Hidden? ==>
        && outcome.country != ""
        && CachedAt(userCountryCache, Lower(outcome.username))
        && userCountryCache[Lower(outcome.username)] == outcome.country
      ensures outcome.Hidden? ==> IsLocationBlocked(outcome.country, blockedLocations)
      ensures outcome.Allowed? ==> !IsLocationBlocked(outcome.country, blockedLocations)
      ensures outcome.NoCountry? ==> !CachedAt(userCountryCache, Lower(outcome.username))
    {
      if item.id in processedTweets || !isEnabled {
        return Skipped, false;
      }
      processedTweets := processedTweets + {item.id};
      var username := ExtractUsername(item.hrefs);
      if username.None? {
        return NoUsername, false;
      }
      var country;
      country, asked := GetCountryForUser(username.value, response);
      if country.None? {
        outcome := NoCountry(username.value);
      } else if IsLocationBlocked(country.value, blockedLocations) {
        outcome := Hidden(username.value, country.value);
      } else {
        outcome := Allowed(username.value, country.value);
      }
    }
  }
}
