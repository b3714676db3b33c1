/** The extension's popup: editing the block list, searching the catalogue
    of users whose country is known, and the catalogue's grouping of users
    by country, largest group first, with a Block or Unblock button per
    group. Rendering is reduced to the values it shows. */
module Popup {
  import opened Messages
  import opened Text
  import Content

  // ---------------------------------------------------------------------------
  // Lists

  /** `a` is `b` with some elements left out, the rest in their order. */
  predicate IsSubsequence(a: seq<string>, b: seq<string>)
    decreases |b|
  {
    a == [] || (b != [] && (IsSubsequence(a, b[1..]) || (a[0] == b[0] && IsSubsequence(a[1..], b[1..]))))
  }

  /** `list.filter(l => !drop(l))`. */
  function Without(list: seq<string>, drop: string -> bool): (r: seq<string>)
    ensures IsSubsequence(r, list)
    ensures forall i :: 0 <= i < |r| ==> !drop(r[i])
  {
    if list == [] then []
    else
      var rest := Without(list[1..], drop);
      if drop(list[0]) then rest
      else
        assert ([list[0]] + rest)[1..] == rest;
        [list[0]] + rest
  }

  /** The filter keeps every occurrence of what it does not drop. */
  lemma {:induction false} WithoutKeeps(list: seq<string>, drop: string -> bool)
    ensures forall e :: !drop(e) ==> multiset(Without(list, drop))[e] == multiset(list)[e]
  {
    if list != [] {
      WithoutKeeps(list[1..], drop);
      assert list == [list[0]] + list[1..];
    }
  }

  /** Dropping what is not there changes nothing. */
  lemma {:induction false} WithoutNothing(list: seq<string>, drop: string -> bool)
    requires forall i :: 0 <= i < |list| ==> !drop(list[i])
    ensures Without(list, drop) == list
  {
    if list != [] {
      WithoutNothing(list[1..], drop);
    }
  }

  lemma {:induction false} SubsequenceElements(a: seq<string>, b: seq<string>)
    requires IsSubsequence(a, b)
    ensures forall x :: x in a ==> x in b
    decreases |b|
  {
    if a != [] {
      if IsSubsequence(a, b[1..]) {
        SubsequenceElements(a, b[1..]);
      } else {
        SubsequenceElements(a[1..], b[1..]);
        assert a == [a[0]] + a[1..];
      }
    }
  }

  // ---------------------------------------------------------------------------
  // The block list

  /** Some entry equals `x` ignoring case. */
  predicate HasIgnoringCase(list: seq<string>, x: string)
    ensures x in list ==> HasIgnoringCase(list, x)
  {
    exists i :: 0 <= i < |list| && Lower(list[i]) == Lower(x)
  }

  /** No entry is empty and no two entries differ only in case: what the
      popup's own edits keep. */
  predicate WellFormed(list: seq<string>) {
    && (forall i :: 0 <= i < |list| ==> list[i] != "")
    && (forall i, j :: 0 <= i < j < |list| ==> Lower(list[i]) != Lower(list[j]))
  }

  /** Adding a non-empty entry no entry equals ignoring case keeps the list
      well formed. */
  lemma AppendKeepsWellFormed(list: seq<string>, x: string)
    requires WellFormed(list) && x != "" && !HasIgnoringCase(list, x)
    ensures WellFormed(list + [x])
  {
    var r := list + [x];
    forall i, j | 0 <= i < j < |r| ensures Lower(r[i]) != Lower(r[j]) {
      assert r[i] == list[i];
    }
  }

  lemma {:induction false} SubsequenceKeepsWellFormed(a: seq<string>, b: seq<string>)
    requires IsSubsequence(a, b) && WellFormed(b)
    ensures WellFormed(a)
    decreases |b|
  {
    if a != [] {
      assert WellFormed(b[1..]) by {
        forall i, j | 0 <= i < j < |b| - 1 ensures Lower(b[1..][i]) != Lower(b[1..][j]) {
          assert b[1..][i] == b[i + 1] && b[1..][j] == b[j + 1];
        }
      }
      if IsSubsequence(a, b[1..]) {
        SubsequenceKeepsWellFormed(a, b[1..]);
      } else {
        SubsequenceKeepsWellFormed(a[1..], b[1..]);
        SubsequenceElements(a[1..], b[1..]);
        forall j | 0 < j < |a| ensures Lower(a[0]) != Lower(a[j]) {
          assert a[j] == a[1..][j - 1];
          assert a[1..][j - 1] in a[1..];
          var k :| 0 <= k < |b[1..]| && b[1..][k] == a[j];
          assert b[k + 1] == a[j];
        }
      }
    }
  }

  /** The popup's `isBlocked`: some entry equals the country ignoring case,
      or one contains the other ignoring case. */
  predicate IsBlocked(blocked: seq<string>, country: string)
    ensures HasIgnoringCase(blocked, country) ==> IsBlocked(blocked, country)
  {
    exists i :: 0 <= i < |blocked| &&
      (Lower(blocked[i]) == Lower(country)
       || Contains(Lower(country), Lower(blocked[i]))
       || Contains(Lower(blocked[i]), Lower(country)))
  }

  /** The equality test is subsumed: a country is shown blocked exactly when
      some entry matches it the way the feed matches. */
  lemma IsBlockedIsAnyMatch(blocked: seq<string>, country: string)
    ensures IsBlocked(blocked, country) <==> exists i :: 0 <= i < |blocked| && Content.Matches(country, blocked[i])
  {
    ContainsTrivial(Lower(country), Lower(country));
  }

  /** For a list with no empty entry, the popup shows a country as blocked
      exactly when the feed hides items from it. */
  lemma BlockedViewsAgree(blocked: seq<string>, country: string)
    requires forall i :: 0 <= i < |blocked| ==> blocked[i] != ""
    requires country != ""
    ensures IsBlocked(blocked, country) == Content.IsLocationBlocked(country, blocked)
  {
    IsBlockedIsAnyMatch(blocked, country);
    Content.IsLocationBlockedIff(country, blocked);
  }

  /** An empty entry matches every country: the popup then shows every
      country as blocked, while the feed, whose first match is that empty
      entry, hides nothing. */
  lemma EmptyEntryViewsDisagree()
    ensures IsBlocked(["", "Germany"], "Germany")
    ensures !Content.IsLocationBlocked("Germany", ["", "Germany"])
  {
    var blocked := ["", "Germany"];
    ContainsTrivial(Lower("Germany"), Lower(""));
    assert Lower("") == "";
    assert Content.Matches("Germany", blocked[0]);
    assert Content.FindMatch("Germany", blocked) == Some("");
  }

  /** The unblock branch of `toggleBlockCountry`: drop the entries equal to
      the country ignoring case. */
  function Unblocked(blocked: seq<string>, country: string): (r: seq<string>)
    ensures IsSubsequence(r, blocked)
    ensures !HasIgnoringCase(r, country)
    ensures forall e :: Lower(e) != Lower(country) ==> multiset(r)[e] == multiset(blocked)[e]
  {
    WithoutKeeps(blocked, l => Lower(l) == Lower(country));
    Without(blocked, l => Lower(l) == Lower(country))
  }

  /** The Unblock button is shown for any country an entry contains, but
      only an entry equal to it is removed: with "United" blocked, the
      group "United States" offers Unblock, and unblocking leaves the list,
      and the country's blocked state, as they were. */
  lemma UnblockCanLeaveCountryBlocked()
    ensures var blocked := ["United"];
      && IsBlocked(blocked, "United States")
      && Unblocked(blocked, "United States") == blocked
      && IsBlocked(Unblocked(blocked, "United States"), "United States")
  {
    var blocked := ["United"];
    assert Lower("United") == "united";
    assert Lower("United States") == "united states";
    assert "united states"[..|"united"|] == "united";
    assert Contains("united states", "united");
    assert Lower(blocked[0]) != Lower("United States");
    WithoutNothing(blocked, l => Lower(l) == Lower("United States"));
  }

  /** Unblocking as the button promises: drop every entry that matches the
      country. */
  function UnblockedMatching(blocked: seq<string>, country: string): (r: seq<string>)
    ensures IsSubsequence(r, blocked)
    ensures forall e :: !Content.Matches(country, e) ==> multiset(r)[e] == multiset(blocked)[e]
  {
    WithoutKeeps(blocked, l => Content.Matches(country, l));
    Without(blocked, l => Content.Matches(country, l))
  }

  /** After unblocking with `UnblockedMatching`, the country is no longer
      shown blocked and the feed no longer hides it. */
  lemma UnblockedMatchingClears(blocked: seq<string>, country: string)
    ensures !IsBlocked(UnblockedMatching(blocked, country), country)
    ensures !Content.IsLocationBlocked(country, UnblockedMatching(blocked, country))
  {
    var r := UnblockedMatching(blocked, country);
    IsBlockedIsAnyMatch(r, country);
  }

  // ---------------------------------------------------------------------------
  // The catalogue

  /** `username.toLowerCase().includes(term) || country.toLowerCase().includes(term)`. */
  predicate SearchHit(username: string, country: string, term: string)
    ensures term == "" ==> SearchHit(username, country, term)
  {
    ContainsTrivial(Lower(username), term);
    Contains(Lower(username), term) || Contains(Lower(country), term)
  }

  /** The search handler's loop: keep the users whose lower-cased username
      or country contains `term`; an empty term keeps everyone. */
  method FilterUsers(users: map<string, string>, term: string) returns (filtered: map<string, string>)
    ensures filtered.Keys <= users.Keys
    ensures forall u :: u in filtered ==> filtered[u] == users[u]
    ensures forall u :: u in users ==> (u in filtered <==> SearchHit(u, users[u], term))
    ensures term == "" ==> filtered == users
  {
    filtered := map[];
    var rest := users.Keys;
    while rest != {}
      invariant rest <= users.Keys
      invariant filtered.Keys <= users.Keys - rest
      invariant forall u :: u in filtered ==> filtered[u] == users[u]
      invariant forall u :: u in users && u !in rest ==> (u in filtered <==> SearchHit(u, users[u], term))
      decreases |rest|
    {
      var u :| u in rest;
      if Contains(Lower(u), term) || Contains(Lower(users[u]), term) {
        filtered := filtered[u := users[u]];
      }
      rest := rest - {u};
    }
    if term == "" {
      forall u | u in users ensures u in filtered {
        ContainsTrivial(Lower(u), term);
      }
    }
  }

  /** One cached user. */
  datatype Entry = Entry(username: string, country: string)

  /** Strictly before, in the order standing in for `localeCompare`. */
  predicate Less(a: string, b: string) {
    LessEq(a, b) && a != b
  }

  lemma LessTransitive(a: string, b: string, c: string)
    requires Less(a, b) && Less(b, c)
    ensures Less(a, c)
  {
    LessEqTransitive(a, b, c);
    if a == c {
      LessEqAntisymmetric(a, b);
    }
  }

  predicate EntriesSorted(es: seq<Entry>) {
    forall i, j :: 0 <= i < j < |es| ==> Less(es[i].username, es[j].username)
  }

  predicate NamesSorted(names: seq<string>) {
    forall i, j :: 0 <= i < j < |names| ==> Less(names[i], names[j])
  }

  /** One step of sorting the entries by username. */
  function InsertByName(e: Entry, es: seq<Entry>): (r: seq<Entry>)
    requires EntriesSorted(es)
    requires forall i :: 0 <= i < |es| ==> es[i].username != e.username
    ensures EntriesSorted(r)
    ensures |r| == |es| + 1
    ensures forall x :: x in r <==> x == e || x in es
  {
    if es == [] then [e]
    else
      LessEqTotal(e.username, es[0].username);
      if LessEq(e.username, es[0].username) then
        assert forall j :: 0 < j < |es| ==> Less(e.username, es[j].username) by {
          forall j | 0 < j < |es| ensures Less(e.username, es[j].username) {
            LessTransitive(e.username, es[0].username, es[j].username);
          }
        }
        [e] + es
      else
        var rest := InsertByName(e, es[1..]);
        assert forall x :: x in es <==> x == es[0] || x in es[1..] by {
          assert es == [es[0]] + es[1..];
        }
        assert forall j :: 0 <= j < |rest| ==> Less(es[0].username, rest[j].username) by {
          forall j | 0 <= j < |rest| ensures Less(es[0].username, rest[j].username) {
            assert rest[j] in rest;
            if rest[j] != e {
              var k :| 0 <= k < |es[1..]| && es[1..][k] == rest[j];
              assert es[k + 1] == rest[j];
            }
          }
        }
        [es[0]] + rest
  }

  /** `Object.entries(users)` sorted by username. */
  method EntriesOf(users: map<string, string>) returns (entries: seq<Entry>)
    ensures EntriesSorted(entries)
    ensures |entries| == |users|
    ensures forall x :: x in entries <==> x.username in users && users[x.username] == x.country
  {
    entries := [];
    var rest := users.Keys;
    while rest != {}
      invariant rest <= users.Keys
      invariant EntriesSorted(entries)
      invariant |entries| + |rest| == |users.Keys|
      invariant forall x :: x in entries <==> x.username in users && x.username !in rest && users[x.username] == x.country
      decreases |rest|
    {
      var u :| u in rest;
      entries := InsertByName(Entry(u, users[u]), entries);
      rest := rest - {u};
    }
  }

  /** The usernames of the entries from `country`, in the entries' order. */
  function MembersOf(es: seq<Entry>, country: string): (names: seq<string>)
    ensures |names| <= |es|
    ensures forall m :: m in names <==> Entry(m, country) in es
  {
    if es == [] then []
    else
      var init := es[..|es| - 1];
      assert es == init + [es[|es| - 1]];
      MembersOf(init, country) + (if es[|es| - 1].country == country then [es[|es| - 1].username] else [])
  }

  /** Appending an entry extends its own country's group by its username
      and leaves every other group as it was. */
  lemma MembersOfSnoc(es: seq<Entry>, e: Entry, country: string)
    ensures MembersOf(es + [e], country)
         == MembersOf(es, country) + (if e.country == country then [e.username] else [])
  {
    assert (es + [e])[..|es|] == es;
  }

  /** Within a group, usernames keep the order of the sorted entries. */
  lemma {:induction false} MembersSorted(es: seq<Entry>, country: string)
    requires EntriesSorted(es)
    ensures NamesSorted(MembersOf(es, country))
  {
    if es != [] {
      var init := es[..|es| - 1];
      var last := es[|es| - 1];
      MembersSorted(init, country);
      forall m | m in MembersOf(init, country) ensures Less(m, last.username) {
        var k :| 0 <= k < |init| && init[k] == Entry(m, country);
        assert es[k] == init[k];
      }
    }
  }

  /** Each user is in the group of its own country and in no other. */
  lemma GroupsPartition(es: seq<Entry>, u: Entry, country: string)
    requires EntriesSorted(es) && u in es
    ensures u.username in MembersOf(es, country) <==> country == u.country
  {
    assert forall a, b :: 0 <= a < |es| && 0 <= b < |es| && es[a].username == es[b].username ==> a == b by {
      forall a, b | 0 <= a < b < |es| ensures es[a].username != es[b].username {
        assert Less(es[a].username, es[b].username);
      }
    }
    if u.username in MembersOf(es, country) {
      var i :| 0 <= i < |es| && es[i] == u;
      var j :| 0 <= j < |es| && es[j] == Entry(u.username, country);
    }
  }

  /** A country none of the entries comes from has no members. */
  lemma {:induction false} MembersOfNone(es: seq<Entry>, country: string)
    requires country !in CountriesOf(es)
    ensures MembersOf(es, country) == []
  {
    if es != [] {
      var init := es[..|es| - 1];
      assert forall x :: x in init ==> x in es;
      MembersOfNone(init, country);
    }
  }

  /** The countries the entries come from. */
  ghost function CountriesOf(es: seq<Entry>): set<string> {
    set e | e in es :: e.country
  }

  lemma CountriesOfSnoc(es: seq<Entry>, e: Entry)
    ensures CountriesOf(es + [e]) == CountriesOf(es) + {e.country}
  {
    assert forall x :: x in es + [e] <==> x in es || x == e;
  }

  /** Where the first entry from `country` is in `es`; `|es|` if there is
      none. */
  function FirstIndex(es: seq<Entry>, country: string): (r: nat)
    ensures r <= |es|
    ensures r < |es| ==> es[r].country == country
    ensures forall k :: 0 <= k < r ==> es[k].country != country
  {
    if es == [] then 0
    else if es[0].country == country then 0
    else 1 + FirstIndex(es[1..], country)
  }

  /** A country occurs in the entries exactly when it has a first entry. */
  lemma FirstIndexOccurs(es: seq<Entry>, country: string)
    ensures country in CountriesOf(es) <==> FirstIndex(es, country) < |es|
  {
    if FirstIndex(es, country) < |es| {
      assert es[FirstIndex(es, country)] in es;
    }
  }

  /** Appending an entry moves no country's first entry, and gives a new
      country its first entry at the end. */
  lemma FirstIndexSnoc(es: seq<Entry>, e: Entry, country: string)
    ensures FirstIndex(es, country) < |es| ==> FirstIndex(es + [e], country) == FirstIndex(es, country)
    ensures FirstIndex(es, country) == |es| && e.country == country ==> FirstIndex(es + [e], country) == |es|
  {
    var r, r' := FirstIndex(es, country), FirstIndex(es + [e], country);
    if r < |es| {
      assert (es + [e])[r] == es[r];
      assert r' <= r;
    } else if e.country == country {
      assert (es + [e])[|es|] == e;
      assert r' <= |es|;
    }
  }

  /** `countries` lists each country in the order of its first entry. */
  ghost predicate InFirstSeenOrder(es: seq<Entry>, countries: seq<string>) {
    forall i, j :: 0 <= i < j < |countries| ==> FirstIndex(es, countries[i]) < FirstIndex(es, countries[j])
  }

  /** A pass of the grouping loop keeps the listed countries in the order
      of their first entries, both when the entry joins a listed country and
      when it brings a new one, which goes last. */
  lemma FirstSeenStep(es: seq<Entry>, e: Entry, countries: seq<string>)
    requires InFirstSeenOrder(es, countries)
    requires forall c :: c in countries ==> c in CountriesOf(es)
    ensures InFirstSeenOrder(es + [e], countries)
    ensures e.country !in CountriesOf(es) ==> InFirstSeenOrder(es + [e], countries + [e.country])
  {
    forall c | c in countries ensures FirstIndex(es, c) < |es| && FirstIndex(es + [e], c) == FirstIndex(es, c) {
      FirstIndexOccurs(es, c);
      FirstIndexSnoc(es, e, c);
    }
    if e.country !in CountriesOf(es) {
      FirstIndexOccurs(es, e.country);
      FirstIndexSnoc(es, e, e.country);
      var cs := countries + [e.country];
      forall i, j | 0 <= i < j < |cs| ensures FirstIndex(es + [e], cs[i]) < FirstIndex(es + [e], cs[j]) {
        assert cs[i] == countries[i] && cs[i] in countries;
        if j < |countries| {
          assert cs[j] == countries[j] && cs[j] in countries;
        }
      }
    }
  }

  /** `byCountry` holds one group per country of `es`, each with its
      members in entry order, and `countries` lists the groups once each. */
  ghost predicate Grouped(es: seq<Entry>, byCountry: map<string, seq<string>>, countries: seq<string>) {
    && byCountry.Keys == CountriesOf(es)
    && (forall c :: c in countries <==> c in byCountry)
    && Distinct(countries)
    && (forall c :: c in byCountry ==> byCountry[c] == MembersOf(es, c))
  }

  /** A pass of the grouping loop for an entry whose country already has
      a group: the entry joins it at the end. */
  lemma GroupStepJoin(entries: seq<Entry>, i: nat, byCountry: map<string, seq<string>>, countries: seq<string>)
    requires i < |entries| && Grouped(entries[..i], byCountry, countries) && entries[i].country in byCountry
    ensures var e := entries[i];
      Grouped(entries[..i + 1], byCountry[e.country := byCountry[e.country] + [e.username]], countries)
  {
    var es, e := entries[..i], entries[i];
    var byCountry' := byCountry[e.country := byCountry[e.country] + [e.username]];
    assert entries[..i + 1] == es + [e];
    assert byCountry'.Keys == CountriesOf(es + [e]) by {
      CountriesOfSnoc(es, e);
    }
    forall c | c in byCountry' ensures byCountry'[c] == MembersOf(es + [e], c) {
      MembersOfSnoc(es, e, c);
    }
  }

  /** A pass of the grouping loop for an entry from a country met for the
      first time: a group holding just it is created and listed last. */
  lemma GroupStepCreate(entries: seq<Entry>, i: nat, byCountry: map<string, seq<string>>, countries: seq<string>)
    requires i < |entries| && Grouped(entries[..i], byCountry, countries) && entries[i].country !in byCountry
    ensures var e := entries[i];
      Grouped(entries[..i + 1], byCountry[e.country := [e.username]], countries + [e.country])
  {
    var es, e := entries[..i], entries[i];
    assert entries[..i + 1] == es + [e];
    CountriesOfSnoc(es, e);
    MembersOfNone(es, e.country);
    forall c | c in byCountry || c == e.country
      ensures MembersOf(es + [e], c) == MembersOf(es, c) + (if e.country == c then [e.username] else [])
    {
      MembersOfSnoc(es, e, c);
    }
    var countries' := countries + [e.country];
    assert Distinct(countries') by {
      forall i, j | 0 <= i < j < |countries'| ensures countries'[i] != countries'[j] {
        if j == |countries| {
          assert countries'[i] in countries;
        }
      }
    }
  }

  /** The `forEach` that groups the sorted entries by country: each group
      lists its members in entry order, and `countries` lists the groups in
      the order their first members were met (the insertion order that
      `Object.keys` keeps for keys that are not array indices). */
  method GroupByCountry(entries: seq<Entry>) returns (byCountry: map<string, seq<string>>, countries: seq<string>)
    ensures Grouped(entries, byCountry, countries)
    ensures InFirstSeenOrder(entries, countries)
  {
    byCountry := map[];
    countries := [];
    for i := 0 to |entries|
      invariant Grouped(entries[..i], byCountry, countries)
      invariant InFirstSeenOrder(entries[..i], countries)
    {
      var e := entries[i];
      assert entries[..i + 1] == entries[..i] + [e];
      FirstSeenStep(entries[..i], e, countries);
      if e.country in byCountry {
        GroupStepJoin(entries, i, byCountry, countries);
        byCountry := byCountry[e.country := byCountry[e.country] + [e.username]];
      } else {
        // a new group, holding this first member
        GroupStepCreate(entries, i, byCountry, countries);
        byCountry := byCountry[e.country := [e.username]];
        countries := countries + [e.country];
      }
    }
    assert entries[..|entries|] == entries;
  }

  /** How many users a group has; 0 for no group. */
  function Size(byCountry: map<string, seq<string>>, country: string): nat {
    if country in byCountry then |byCountry[country]| else 0
  }

  predicate BySizeDescending(cs: seq<string>, byCountry: map<string, seq<string>>) {
    forall i, j :: 0 <= i < j < |cs| ==> Size(byCountry, cs[i]) >= Size(byCountry, cs[j])
  }

  predicate Distinct(cs: seq<string>) {
    forall i, j :: 0 <= i < j < |cs| ==> cs[i] != cs[j]
  }

  /** One step of the stable sort by group size: `c` goes after every group
      at least as large. */
  function InsertBySize(c: string, sorted: seq<string>, byCountry: map<string, seq<string>>): (r: seq<string>)
    ensures |r| == |sorted| + 1
    ensures multiset(r) == multiset(sorted) + multiset{c}
    ensures forall x :: x in r <==> x == c || x in sorted
  {
    if sorted == [] then [c]
    else if Size(byCountry, sorted[0]) < Size(byCountry, c) then [c] + sorted
    else
      assert sorted == [sorted[0]] + sorted[1..];
      [sorted[0]] + InsertBySize(c, sorted[1..], byCountry)
  }

  /** A group at least as large as every group of an ordered list can go
      in front of it. */
  lemma PrependKeepsOrder(x: string, rest: seq<string>, byCountry: map<string, seq<string>>)
    requires BySizeDescending(rest, byCountry)
    requires forall y :: y in rest ==> Size(byCountry, x) >= Size(byCountry, y)
    ensures BySizeDescending([x] + rest, byCountry)
  {
    var r := [x] + rest;
    forall i, j | 0 <= i < j < |r| ensures Size(byCountry, r[i]) >= Size(byCountry, r[j]) {
      assert r[j] == rest[j - 1];
      if i > 0 {
        assert r[i] == rest[i - 1];
      }
    }
  }

  lemma {:induction false} InsertBySizeKeepsOrder(c: string, sorted: seq<string>, byCountry: map<string, seq<string>>)
    requires BySizeDescending(sorted, byCountry)
    ensures BySizeDescending(InsertBySize(c, sorted, byCountry), byCountry)
  {
    if sorted == [] {
    } else if Size(byCountry, sorted[0]) < Size(byCountry, c) {
      forall y | y in sorted ensures Size(byCountry, c) >= Size(byCountry, y) {
        var k :| 0 <= k < |sorted| && sorted[k] == y;
        assert Size(byCountry, sorted[0]) >= Size(byCountry, sorted[k]) || k == 0;
      }
      PrependKeepsOrder(c, sorted, byCountry);
    } else {
      var tail := sorted[1..];
      assert BySizeDescending(tail, byCountry);
      InsertBySizeKeepsOrder(c, tail, byCountry);
      forall y | y in tail ensures Size(byCountry, sorted[0]) >= Size(byCountry, y) {
        var k :| 0 <= k < |tail| && tail[k] == y;
        assert sorted[k + 1] == y;
      }
      PrependKeepsOrder(sorted[0], InsertBySize(c, tail, byCountry), byCountry);
    }
  }

  lemma {:induction false} InsertBySizeKeepsDistinct(c: string, sorted: seq<string>, byCountry: map<string, seq<string>>)
    ensures Distinct(sorted) && c !in sorted ==> Distinct(InsertBySize(c, sorted, byCountry))
  {
    if Distinct(sorted) && c !in sorted && sorted != [] && Size(byCountry, sorted[0]) >= Size(byCountry, c) {
      var rest := InsertBySize(c, sorted[1..], byCountry);
      assert Distinct(sorted[1..]) by {
        forall i, j | 0 <= i < j < |sorted| - 1 ensures sorted[1..][i] != sorted[1..][j] {
          assert sorted[1..][i] == sorted[i + 1] && sorted[1..][j] == sorted[j + 1];
        }
      }
      InsertBySizeKeepsDistinct(c, sorted[1..], byCountry);
      assert sorted[0] !in rest by {
        assert sorted[0] !in sorted[1..];
      }
      var r := [sorted[0]] + rest;
      forall i, j | 0 <= i < j < |r| ensures r[i] != r[j] {
        assert r[j] == rest[j - 1];
        if i > 0 {
          assert r[i] == rest[i - 1];
        } else {
          assert rest[j - 1] in rest;
        }
      }
    } else if Distinct(sorted) && c !in sorted && sorted != [] {
      var r := [c] + sorted;
      forall i, j | 0 <= i < j < |r| ensures r[i] != r[j] {
        assert r[j] == sorted[j - 1];
        if i > 0 {
          assert r[i] == sorted[i - 1];
        }
      }
    }
  }

  /** `Object.keys(byCountry).sort((a, b) => size(b) - size(a))`: the groups
      by non-increasing size. */
  function SortBySize(cs: seq<string>, byCountry: map<string, seq<string>>): (r: seq<string>)
    ensures multiset(r) == multiset(cs)
    ensures forall x :: x in r <==> x in cs
    ensures BySizeDescending(r, byCountry)
    ensures Distinct(cs) ==> Distinct(r)
  {
    if cs == [] then []
    else
      var init := cs[..|cs| - 1];
      var last := cs[|cs| - 1];
      assert cs == init + [last];
      var s := SortBySize(init, byCountry);
      InsertBySizeKeepsOrder(last, s, byCountry);
      InsertBySizeKeepsDistinct(last, s, byCountry);
      assert Distinct(cs) ==> last !in s && Distinct(init) by {
        if Distinct(cs) {
          forall k | 0 <= k < |init| ensures init[k] != last {
            assert init[k] == cs[k];
          }
        }
      }
      InsertBySize(last, s, byCountry)
  }

  /** One country group as the catalogue shows it. */
  datatype Group = Group(country: string, members: seq<string>, blocked: bool)

  /** The groups in the order `sorted` gives their countries. */
  function GroupsOf(sorted: seq<string>, byCountry: map<string, seq<string>>, blocked: seq<string>): (groups: seq<Group>)
    requires forall c :: c in sorted ==> c in byCountry
    ensures |groups| == |sorted|
    ensures forall k :: 0 <= k < |sorted| ==>
      groups[k] == Group(sorted[k], byCountry[sorted[k]], IsBlocked(blocked, sorted[k]))
  {
    seq(|sorted|, k requires 0 <= k < |sorted| =>
      Group(sorted[k], byCountry[sorted[k]], IsBlocked(blocked, sorted[k])))
  }

  /** Each group holds exactly the users from its country, sorted by
      username. */
  ghost predicate GroupsHoldUsers(users: map<string, string>, groups: seq<Group>) {
    forall k :: 0 <= k < |groups| ==>
      && (forall m :: m in groups[k].members <==> m in users && users[m] == groups[k].country)
      && NamesSorted(groups[k].members)
  }

  /** No country has two groups, and the largest group comes first. */
  ghost predicate GroupsOrdered(groups: seq<Group>) {
    && (forall i, j :: 0 <= i < j < |groups| ==> groups[i].country != groups[j].country)
    && (forall i, j :: 0 <= i < j < |groups| ==> |groups[i].members| >= |groups[j].members|)
  }

  /** Every user's country has a group, no group is empty, and there are
      groups exactly when there are users. */
  ghost predicate GroupsCover(users: map<string, string>, groups: seq<Group>) {
    && (groups == [] <==> users == map[])
    && (forall u :: u in users ==> exists k :: 0 <= k < |groups| && groups[k].country == users[u])
    && (forall k :: 0 <= k < |groups| ==> groups[k].members != [])
  }

  /** Each group's button says whether its country counts as blocked. */
  ghost predicate GroupsFlagged(blocked: seq<string>, groups: seq<Group>) {
    forall k :: 0 <= k < |groups| ==> groups[k].blocked == IsBlocked(blocked, groups[k].country)
  }

  /** What the catalogue shows for `users`. */
  ghost predicate ShowsCatalogue(users: map<string, string>, blocked: seq<string>, groups: seq<Group>) {
    GroupsHoldUsers(users, groups) && GroupsOrdered(groups) && GroupsCover(users, groups) && GroupsFlagged(blocked, groups)
  }

  lemma GroupsFromEntriesHoldUsers(users: map<string, string>, entries: seq<Entry>, byCountry: map<string, seq<string>>,
                                   sorted: seq<string>, blocked: seq<string>)
    requires EntriesSorted(entries)
    requires forall x :: x in entries <==> x.username in users && users[x.username] == x.country
    requires forall c :: c in byCountry ==> byCountry[c] == MembersOf(entries, c)
    requires forall c :: c in sorted ==> c in byCountry
    ensures GroupsHoldUsers(users, GroupsOf(sorted, byCountry, blocked))
  {
    var groups := GroupsOf(sorted, byCountry, blocked);
    forall k | 0 <= k < |groups|
      ensures forall m :: m in groups[k].members <==> m in users && users[m] == groups[k].country
      ensures NamesSorted(groups[k].members)
    {
      MembersSorted(entries, sorted[k]);
    }
  }

  lemma GroupsBySizeOrdered(sorted: seq<string>, byCountry: map<string, seq<string>>, blocked: seq<string>)
    requires forall c :: c in sorted ==> c in byCountry
    requires BySizeDescending(sorted, byCountry) && Distinct(sorted)
    ensures GroupsOrdered(GroupsOf(sorted, byCountry, blocked))
  {
    var groups := GroupsOf(sorted, byCountry, blocked);
    forall i, j | 0 <= i < j < |groups| ensures |groups[i].members| >= |groups[j].members| {
      assert Size(byCountry, sorted[i]) >= Size(byCountry, sorted[j]);
    }
  }

  lemma GroupsFromEntriesCover(users: map<string, string>, entries: seq<Entry>,
                               byCountry: map<string, seq<string>>, sorted: seq<string>, blocked: seq<string>)
    requires forall x :: x in entries <==> x.username in users && users[x.username] == x.country
    requires byCountry.Keys == CountriesOf(entries)
    requires forall c :: c in byCountry ==> byCountry[c] == MembersOf(entries, c)
    requires forall c :: c in sorted <==> c in byCountry
    ensures GroupsCover(users, GroupsOf(sorted, byCountry, blocked))
  {
    var groups := GroupsOf(sorted, byCountry, blocked);
    forall k | 0 <= k < |groups| ensures groups[k].members != [] {
      assert sorted[k] in sorted && sorted[k] in CountriesOf(entries);
      var e :| e in entries && e.country == sorted[k];
      assert e.username in MembersOf(entries, sorted[k]);
    }
    forall u | u in users ensures exists k :: 0 <= k < |groups| && groups[k].country == users[u] {
      assert Entry(u, users[u]) in entries;
      assert users[u] in byCountry;
      var k :| 0 <= k < |sorted| && sorted[k] == users[u];
      assert groups[k].country == users[u];
    }
    if users != map[] {
      var u :| u in users;
      assert Entry(u, users[u]) in entries;
      assert users[u] in sorted;
    }
    forall c | c in sorted ensures users != map[] {
      var e :| e in entries && e.country == c;
    }
    if sorted != [] {
      assert sorted[0] in sorted;
    }
  }

  /** The pipeline of `renderUsers` (sort the entries, group them, order
      the groups) shows the catalogue. */
  lemma GroupsShowCatalogue(users: map<string, string>, entries: seq<Entry>, countries: seq<string>,
                            byCountry: map<string, seq<string>>, blocked: seq<string>)
    requires EntriesSorted(entries)
    requires forall x :: x in entries <==> x.username in users && users[x.username] == x.country
    requires Grouped(entries, byCountry, countries)
    ensures ShowsCatalogue(users, blocked, GroupsOf(SortBySize(countries, byCountry), byCountry, blocked))
  {
    var sorted := SortBySize(countries, byCountry);
    var groups := GroupsOf(sorted, byCountry, blocked);
    assert forall c :: c in sorted ==> c in byCountry;
    assert GroupsHoldUsers(users, groups) by {
      GroupsFromEntriesHoldUsers(users, entries, byCountry, sorted, blocked);
    }
    assert GroupsOrdered(groups) by {
      GroupsBySizeOrdered(sorted, byCountry, blocked);
    }
    assert GroupsCover(users, groups) by {
      GroupsFromEntriesCover(users, entries, byCountry, sorted, blocked);
    }
  }

  /** What `addLocation` did. */
  datatype AddResult = Blank | AlreadyBlocked | Added(location: string)

  /** The popup's state: the block list and the catalogue of users. */
  class PopupPage {
    var blockedLocations: seq<string>
    var allUsers: map<string, string>

    /** The list has no empty entry and no case duplicates. The popup's own
        edits keep this; a list read from storage need not have it, so the
        constructor does not promise it. */
    ghost predicate Valid()
      reads this
    {
      WellFormed(blockedLocations)
    }

    /** The stored list and catalogue; either may be missing. */
    constructor (stored: Option<seq<string>>, cache: Option<map<string, string>>)
      ensures blockedLocations == (if stored.Some? then stored.value else [])
      ensures allUsers == (if cache.Some? then cache.value else map[])
    {
      blockedLocations := if stored.Some? then stored.value else [];
      allUsers := if cache.Some? then cache.value else map[];
    }

    /** `addLocation`: the trimmed input, unless it is empty or already on
        the list ignoring case, goes at the end of the list. */
    method AddLocation(input: string) returns (result: AddResult)
      modifies this`blockedLocations
      ensures var location := Trim(input);
        && (location == "" ==> result == Blank && blockedLocations == old(blockedLocations))
        && (location != "" && HasIgnoringCase(old(blockedLocations), location) ==>
              result == AlreadyBlocked && blockedLocations == old(blockedLocations))
        && (location != "" && !HasIgnoringCase(old(blockedLocations), location) ==>
              result == Added(location) && blockedLocations == old(blockedLocations) + [location])
      ensures old(Valid()) ==> Valid()
    {
      var location := Trim(input);
      if location == "" {
        return Blank;
      }
      if HasIgnoringCase(blockedLocations, location) {
        return AlreadyBlocked;
      }
      if Valid() {
        AppendKeepsWellFormed(blockedLocations, location);
      }
      blockedLocations := blockedLocations + [location];
      return Added(location);
    }

    /** `removeLocation`: every entry equal to `location` goes; the others
        stay in their order. */
    method RemoveLocation(location: string)
      modifies this`blockedLocations
      ensures blockedLocations == Without(old(blockedLocations), l => l == location)
      ensures location !in blockedLocations
      ensures old(Valid()) ==> Valid()
    {
      blockedLocations := Without(blockedLocations, l => l == location);
      if WellFormed(old(blockedLocations)) {
        SubsequenceKeepsWellFormed(blockedLocations, old(blockedLocations));
      }
    }

    /** `toggleBlockCountry`: unblocking drops the entries equal to the
        country ignoring case; blocking appends it. When the flag is the one
        the catalogue showed, the list stays well formed. */
    method ToggleBlockCountry(country: string, isCurrentlyBlocked: bool)
      modifies this`blockedLocations
      ensures isCurrentlyBlocked ==> blockedLocations == Unblocked(old(blockedLocations), country)
      ensures !isCurrentlyBlocked ==> blockedLocations == old(blockedLocations) + [country]
      ensures old(Valid()) && country != "" && isCurrentlyBlocked == IsBlocked(old(blockedLocations), country) ==> Valid()
    {
      if isCurrentlyBlocked {
        blockedLocations := Unblocked(blockedLocations, country);
        if WellFormed(old(blockedLocations)) {
          SubsequenceKeepsWellFormed(blockedLocations, old(blockedLocations));
        }
      } else {
        blockedLocations := blockedLocations + [country];
      }
    }

    /** The Clear cache button, after the user's answer to the prompt. */
    method ClearCache(confirmed: bool)
      modifies this`allUsers
      ensures allUsers == if confirmed then map[] else old(allUsers)
    {
      if confirmed {
        allUsers := map[];
      }
    }

    /** The search box: the users whose username or country contains the
        input, ignoring case, and whether the view counts as filtered. */
    method Search(input: string) returns (filtered: map<string, string>, isFiltered: bool)
      ensures filtered.Keys <= allUsers.Keys
      ensures forall u :: u in filtered ==> filtered[u] == allUsers[u]
      ensures forall u :: u in allUsers ==> (u in filtered <==> SearchHit(u, allUsers[u], Lower(input)))
      ensures isFiltered <==> input != ""
    {
      filtered := FilterUsers(allUsers, Lower(input));
      isFiltered := Lower(input) != "";
    }

    /** `renderUsers`, reduced to the groups it shows. On a well-formed
        list, each group's button says Unblock exactly when the feed hides
        items from its country. */
    method RenderUsers(users: map<string, string>) returns (groups: seq<Group>)
      ensures ShowsCatalogue(users, blockedLocations, groups)
      ensures Valid() ==> forall k :: 0 <= k < |groups| && groups[k].country != "" ==>
        groups[k].blocked == Content.IsLocationBlocked(groups[k].country, blockedLocations)
    {
      var entries := EntriesOf(users);
      var byCountry, countries := GroupByCountry(entries);
      var sorted := SortBySize(countries, byCountry);
      groups := GroupsOf(sorted, byCountry, blockedLocations);
      GroupsShowCatalogue(users, entries, countries, byCountry, blockedLocations);
      if Valid() {
        forall k | 0 <= k < |groups| && groups[k].country != ""
          ensures groups[k].blocked == Content.IsLocationBlocked(groups[k].country, blockedLocations)
        {
          BlockedViewsAgree(blockedLocations, groups[k].country);
        }
      }
    }
  }
}
