/**
 * Okta group retrieval: the id => name table, the regex filter over group
 * names, and the paginated member listing of one group.
 */
module Groups {
  import opened Php
  import opened Api

  const GroupsUri: string := "/api/v1/groups"

  /** The members endpoint of one group, with each member's manager expanded. */
  function MembersUri(groupId: string): string {
    "/api/v1/groups/" + groupId + "/users?expand=manager"
  }

  /** What `@preg_match` does with one subject: 1 is `Matched`, 0 or `false` is `NoMatch`, a thrown exception is `Raised`. */
  datatype MatchOutcome = Matched | NoMatch | Raised

  function GroupId(g: Json): string {
    TextOf(Field(g, "id"))
  }

  function GroupName(g: Json): string {
    TextOf(Field(Field(g, "profile"), "name"))
  }

  // ---------------------------------------------------------------------
  // getGroups

  /** The id => addslashes(name) table after the loop has seen `items` in order. */
  function GroupsFrom(items: seq<Json>): (r: OMap<string, string>)
    ensures r.Valid()
  {
    if items == [] then EmptyMap()
    else
      var last := items[|items| - 1];
      GroupsFrom(items[..|items| - 1]).Put(GroupId(last), AddSlashes(GroupName(last)))
  }

  /** The table `getGroups()` returns for one response of the groups endpoint. */
  function GroupsOf(response: Option<Response>): (r: OMap<string, string>)
    ensures r.Valid()
    ensures response.None? || response.value.body == Null ==> r == EmptyMap()
  {
    if response.None? || response.value.body == Null then EmptyMap()
    else GroupsFrom(Items(response.value.body))
  }

  /** Every listed id is a key and nothing else is. */
  lemma {:induction false} GroupsFromKeys(items: seq<Json>, id: string)
    ensures id in GroupsFrom(items).vals <==> exists i :: 0 <= i < |items| && GroupId(items[i]) == id
  {
    if items != [] {
      var n := |items| - 1;
      var init, last := items[..n], items[n];
      GroupsFromKeys(init, id);
      assert id in GroupsFrom(items).vals <==> id in GroupsFrom(init).vals || id == GroupId(last);
      if id in GroupsFrom(init).vals {
        var i :| 0 <= i < n && GroupId(init[i]) == id;
        assert items[i] == init[i];
      }
      if exists i :: 0 <= i < |items| && GroupId(items[i]) == id {
        var i :| 0 <= i < |items| && GroupId(items[i]) == id;
        if i < n {
          assert init[i] == items[i];
        }
      }
    }
  }

  /** An id listed more than once holds the escaped name of its last listing. */
  lemma {:induction false} GroupsFromLastNameWins(items: seq<Json>, i: nat)
    requires i < |items|
    requires forall j :: i < j < |items| ==> GroupId(items[j]) != GroupId(items[i])
    ensures GroupId(items[i]) in GroupsFrom(items).vals
    ensures GroupsFrom(items).vals[GroupId(items[i])] == AddSlashes(GroupName(items[i]))
  {
    if i < |items| - 1 {
      var init := items[..|items| - 1];
      assert init[i] == items[i];
      assert forall j :: i < j < |init| ==> init[j] == items[j];
      GroupsFromLastNameWins(init, i);
    }
  }

  /** Every stored name is an addslashes() result, so it survives stripslashes() then addslashes(). */
  lemma {:induction false} GroupsFromEscaped(items: seq<Json>)
    ensures forall id :: id in GroupsFrom(items).vals ==>
              AddSlashes(StripSlashes(GroupsFrom(items).vals[id])) == GroupsFrom(items).vals[id]
  {
    if items != [] {
      var last := items[|items| - 1];
      GroupsFromEscaped(items[..|items| - 1]);
      EscapedRoundTrip(AddSlashes(GroupName(last)), GroupName(last));
    }
  }

  lemma GroupsOfEscaped(response: Option<Response>)
    ensures forall id :: id in GroupsOf(response).vals ==>
              AddSlashes(StripSlashes(GroupsOf(response).vals[id])) == GroupsOf(response).vals[id]
  {
    if response.Some? && response.value.body != Null {
      GroupsFromEscaped(Items(response.value.body));
    }
  }

  // ---------------------------------------------------------------------
  // getGroupsByRegex

  /** The pattern `getGroupsByRegex` hands to preg_match: delimited and case-insensitive. */
  function RegexPattern(regex: string): string {
    "/" + StripSlashes(regex) + "/i"
  }

  /** One iteration of the loop: keep the group when its unescaped name matches; a raise ends the loop. */
  function FilterStep(acc: Option<OMap<string, string>>, key: string, vals: map<string, string>, pattern: string,
                      matcher: (string, string) -> MatchOutcome): (r: Option<OMap<string, string>>)
    requires key in vals
    ensures acc.Some? && acc.value.Valid() && r.Some? ==> r.value.Valid()
    ensures acc.None? ==> r.None?
  {
    match acc
    case None => None
    case Some(a) =>
      var name := StripSlashes(vals[key]);
      match matcher(pattern, name)
      case Raised => None
      case NoMatch => Some(a)
      case Matched => Some(a.Put(key, AddSlashes(name)))
  }

  /**
   * The filtered table after the loop has seen `keys` in order; None once
   * preg_match has raised for some name.
   */
  function Filtered(keys: seq<string>, vals: map<string, string>, pattern: string,
                    matcher: (string, string) -> MatchOutcome): (r: Option<OMap<string, string>>)
    requires forall k :: k in keys ==> k in vals
    ensures r.Some? ==> r.value.Valid()
  {
    if keys == [] then Some(EmptyMap())
    else FilterStep(Filtered(keys[..|keys| - 1], vals, pattern, matcher), keys[|keys| - 1], vals, pattern, matcher)
  }

  lemma FilteredStep(keys: seq<string>, vals: map<string, string>, pattern: string,
                     matcher: (string, string) -> MatchOutcome, i: nat)
    requires forall k :: k in keys ==> k in vals
    requires i < |keys|
    ensures Filtered(keys[..i + 1], vals, pattern, matcher)
            == FilterStep(Filtered(keys[..i], vals, pattern, matcher), keys[i], vals, pattern, matcher)
  {
    assert keys[..i + 1][..i] == keys[..i];
    assert forall k :: k in keys[..i + 1] ==> k in keys;
  }

  function Outcome(k: string, vals: map<string, string>, pattern: string,
                   matcher: (string, string) -> MatchOutcome): MatchOutcome
    requires k in vals
  {
    matcher(pattern, StripSlashes(vals[k]))
  }

  lemma {:induction false} FilteredNoneAbsorbs(keys: seq<string>, vals: map<string, string>, pattern: string,
                                               matcher: (string, string) -> MatchOutcome, j: nat)
    requires forall k :: k in keys ==> k in vals
    requires j <= |keys| && Filtered(keys[..j], vals, pattern, matcher) == None
    ensures Filtered(keys, vals, pattern, matcher) == None
    decreases |keys|
  {
    if j < |keys| {
      var init := keys[..|keys| - 1];
      assert init[..j] == keys[..j];
      FilteredNoneAbsorbs(init, vals, pattern, matcher, j);
    } else {
      assert keys[..j] == keys;
    }
  }

  /** The filter fails exactly when preg_match raises for one of the names. */
  lemma {:induction false} FilteredFailsIffRaised(keys: seq<string>, vals: map<string, string>, pattern: string,
                                                  matcher: (string, string) -> MatchOutcome)
    requires forall k :: k in keys ==> k in vals
    ensures Filtered(keys, vals, pattern, matcher).None?
            <==> exists i :: 0 <= i < |keys| && Outcome(keys[i], vals, pattern, matcher) == Raised
  {
    if keys != [] {
      var init := keys[..|keys| - 1];
      FilteredFailsIffRaised(init, vals, pattern, matcher);
      assert forall i :: 0 <= i < |init| ==> init[i] == keys[i];
      if exists i :: 0 <= i < |keys| && Outcome(keys[i], vals, pattern, matcher) == Raised {
        var i :| 0 <= i < |keys| && Outcome(keys[i], vals, pattern, matcher) == Raised;
        if i < |init| {
          assert Outcome(init[i], vals, pattern, matcher) == Raised;
        }
      }
    }
  }

  /**
   * On success the result keeps exactly the matched keys; when every stored
   * name is an addslashes() result, each kept key keeps its stored value.
   */
  lemma {:induction false} FilteredContents(keys: seq<string>, vals: map<string, string>, pattern: string,
                                            matcher: (string, string) -> MatchOutcome, k: string)
    requires forall k :: k in keys ==> k in vals
    requires Filtered(keys, vals, pattern, matcher).Some?
    ensures k in Filtered(keys, vals, pattern, matcher).value.vals
            <==> k in keys && Outcome(k, vals, pattern, matcher) == Matched
    ensures k in Filtered(keys, vals, pattern, matcher).value.vals ==>
              Filtered(keys, vals, pattern, matcher).value.vals[k] == AddSlashes(StripSlashes(vals[k]))
  {
    if keys != [] {
      var init := keys[..|keys| - 1];
      FilteredContents(init, vals, pattern, matcher, k);
      assert keys == init + [keys[|keys| - 1]];
    }
  }

  /** A pattern that matches every (distinct) name keeps every key, in order. */
  lemma {:induction false} FilteredMatchAllKeys(keys: seq<string>, vals: map<string, string>, pattern: string,
                                                matcher: (string, string) -> MatchOutcome)
    requires forall k :: k in keys ==> k in vals
    requires forall i, j :: 0 <= i < j < |keys| ==> keys[i] != keys[j]
    requires forall k :: k in keys ==> Outcome(k, vals, pattern, matcher) == Matched
    ensures Filtered(keys, vals, pattern, matcher).Some?
    ensures Filtered(keys, vals, pattern, matcher).value.keys == keys
  {
    if keys != [] {
      var n := |keys| - 1;
      var init, key := keys[..n], keys[n];
      assert key !in init by {
        assert forall i :: 0 <= i < n ==> init[i] == keys[i];
      }
      FilteredMatchAllKeys(init, vals, pattern, matcher) by {
        assert forall i :: 0 <= i < n ==> init[i] == keys[i];
      }
      var prev := Filtered(init, vals, pattern, matcher).value;
      FilteredStep(keys, vals, pattern, matcher, n);
      assert keys[..n + 1] == keys;
      assert Outcome(key, vals, pattern, matcher) == Matched;
      assert key !in prev.vals;
      assert init + [key] == keys;
    }
  }

  /** A pattern that matches no name gives the empty table. */
  lemma {:induction false} FilteredMatchNone(keys: seq<string>, vals: map<string, string>, pattern: string,
                                             matcher: (string, string) -> MatchOutcome)
    requires forall k :: k in keys ==> k in vals
    requires forall k :: k in keys ==> Outcome(k, vals, pattern, matcher) == NoMatch
    ensures Filtered(keys, vals, pattern, matcher) == Some(EmptyMap())
  {
    if keys != [] {
      FilteredMatchNone(keys[..|keys| - 1], vals, pattern, matcher);
    }
  }

  // ---------------------------------------------------------------------
  // getUsersInGroup

  /**
   * The members collected by following `next` links from `uri`, with at most
   * `fuel` requests. A page without a Link header or without a body ends the
   * listing without contributing; a page without a `next` link is the last.
   */
  function Pages(fetch: string -> Option<Response>, uri: string, fuel: nat): seq<Json>
    decreases fuel
  {
    if fuel == 0 || !TruthyString(uri) then []
    else
      var page := fetch(uri);
      if page.None? || "link" !in page.value.header || page.value.body == Null then []
      else
        var links := LinksOf(page.value.header["link"]);
        Items(page.value.body) + (if "next" in links then Pages(fetch, links["next"], fuel - 1) else [])
  }

  /** With more requests allowed the listing only grows at its end. */
  lemma {:induction false} PagesFuelPrefix(fetch: string -> Option<Response>, uri: string, fuel: nat)
    ensures Pages(fetch, uri, fuel) <= Pages(fetch, uri, fuel + 1)
    decreases fuel
  {
    if fuel > 0 && TruthyString(uri) {
      var page := fetch(uri);
      if page.Some? && "link" in page.value.header && page.value.body != Null {
        var links := LinksOf(page.value.header["link"]);
        if "next" in links {
          PagesFuelPrefix(fetch, links["next"], fuel - 1);
        }
      }
    }
  }

  /** A page whose Link header names no next page is the last one. */
  lemma LastPage(fetch: string -> Option<Response>, uri: string, fuel: nat, h: map<string, seq<string>>, body: Json)
    requires fuel > 0 && TruthyString(uri)
    requires fetch(uri) == Some(Response(h, body)) && body != Null
    requires "link" in h && "next" !in LinksOf(h["link"])
    ensures Pages(fetch, uri, fuel) == Items(body)
  {
  }

  /** Two pages joined by a `next` link are listed in order. */
  lemma TwoLinkedPages(fetch: string -> Option<Response>, first: string, second: string, fuel: nat,
                       h1: map<string, seq<string>>, b1: Json, h2: map<string, seq<string>>, b2: Json)
    requires fuel >= 2 && TruthyString(first) && TruthyString(second)
    requires fetch(first) == Some(Response(h1, b1)) && b1 != Null
    requires "link" in h1 && "next" in LinksOf(h1["link"]) && LinksOf(h1["link"])["next"] == second
    requires fetch(second) == Some(Response(h2, b2)) && b2 != Null
    requires "link" in h2 && "next" !in LinksOf(h2["link"])
    ensures Pages(fetch, first, fuel) == Items(b1) + Items(b2)
  {
    LastPage(fetch, second, fuel - 1, h2, b2);
  }

  /** A first page without a Link header, or without a body, gives no members at all. */
  lemma UnlinkedOrEmptyPageGivesNothing(fetch: string -> Option<Response>, uri: string, fuel: nat)
    requires fetch(uri).None? || "link" !in fetch(uri).value.header || fetch(uri).value.body == Null
    ensures Pages(fetch, uri, fuel) == []
  {
  }

  class GroupService {
    /** The client's `request()`, as a function of the URI. */
    const fetch: string -> Option<Response>
    /** The largest number of pages one member listing follows. */
    const maxPages: nat

    constructor (fetch: string -> Option<Response>, maxPages: nat)
      ensures this.fetch == fetch && this.maxPages == maxPages
    {
      this.fetch := fetch;
      this.maxPages := maxPages;
    }

    /** Every group as id => addslashes(name); nothing on a failed request or a missing body. */
    method GetGroups() returns (groups: OMap<string, string>)
      ensures groups == GroupsOf(fetch(GroupsUri))
    {
      var response := fetch(GroupsUri);
      if response.None? || response.value.body == Null {
        return EmptyMap();
      }
      var items := Items(response.value.body);
      groups := EmptyMap();
      var i := 0;
      while i < |items|
        invariant 0 <= i <= |items|
        invariant groups == GroupsFrom(items[..i])
      {
        assert items[..i + 1][..i] == items[..i];
        groups := groups.Put(GroupId(items[i]), AddSlashes(GroupName(items[i])));
        i := i + 1;
      }
      assert items[..i] == items;
    }

    /** The groups whose unescaped name matches `/regex/i`; None once preg_match raises. */
    method GetGroupsByRegex(regex: string, matcher: (string, string) -> MatchOutcome)
      returns (r: Option<OMap<string, string>>)
      ensures r == Filtered(GroupsOf(fetch(GroupsUri)).keys, GroupsOf(fetch(GroupsUri)).vals, RegexPattern(regex), matcher)
    {
      var groups := GetGroups();
      var pattern := "/" + StripSlashes(regex) + "/i";
      var filtered := EmptyMap();
      assert forall k :: k in groups.keys ==> k in groups.vals;
      var i := 0;
      while i < |groups.keys|
        invariant 0 <= i <= |groups.keys|
        invariant Filtered(groups.keys[..i], groups.vals, pattern, matcher) == Some(filtered)
      {
        FilteredStep(groups.keys, groups.vals, pattern, matcher, i);
        var next := FilterGroup(filtered, groups.keys[i], groups.vals, pattern, matcher);
        if next.None? {
          FilteredNoneAbsorbs(groups.keys, groups.vals, pattern, matcher, i + 1);
          return None;
        }
        filtered := next.value;
        i := i + 1;
      }
      assert groups.keys[..i] == groups.keys;
      r := Some(filtered);
    }

    /** One pass of the filter loop: the unescaped name is matched, kept re-escaped, or the match raises. */
    static method FilterGroup(filtered: OMap<string, string>, key: string, vals: map<string, string>,
                              pattern: string, matcher: (string, string) -> MatchOutcome)
      returns (r: Option<OMap<string, string>>)
      requires key in vals
      ensures r == FilterStep(Some(filtered), key, vals, pattern, matcher)
    {
      var name := StripSlashes(vals[key]);
      var outcome := matcher(pattern, name);
      if outcome == Raised {
        return None;
      }
      r := Some(filtered);
      if outcome == Matched {
        r := Some(filtered.Put(key, AddSlashes(name)));
      }
    }

    /** The members of one group, following `next` links for at most `maxPages` requests. */
    method GetUsersInGroup(groupId: string) returns (users: seq<Json>)
      ensures users == Pages(fetch, MembersUri(groupId), maxPages)
    {
      var uri := MembersUri(groupId);
      var budget := maxPages;
      users := [];
      while TruthyString(uri) && budget > 0
        invariant users + Pages(fetch, uri, budget) == Pages(fetch, MembersUri(groupId), maxPages)
        decreases budget
      {
        var current := fetch(uri);
        if current.None? || "link" !in current.value.header {
          assert users == users + [];
          return;
        }
        var links := ParseLinkHeader(current.value.header["link"]);
        if current.value.body == Null {
          assert users == users + [];
          return;
        }
        assert users + Pages(fetch, uri, budget) == (users + Items(current.value.body))
               + (if "next" in links then Pages(fetch, links["next"], budget - 1) else []);
        users := users + Items(current.value.body);
        if "next" in links {
          uri := links["next"];
        } else {
          assert users == users + [];
          return;
        }
        budget := budget - 1;
      }
      assert users == users + [];
    }
  }

  /** `getGroupsByRegex` fails exactly when preg_match raises for some group's name. */
  lemma GroupsByRegexFailsIffRaised(response: Option<Response>, regex: string,
                                    matcher: (string, string) -> MatchOutcome)
    ensures Filtered(GroupsOf(response).keys, GroupsOf(response).vals, RegexPattern(regex), matcher).None?
            <==> exists i :: 0 <= i < |GroupsOf(response).keys|
                   && Outcome(GroupsOf(response).keys[i], GroupsOf(response).vals, RegexPattern(regex), matcher) == Raised
  {
    FilteredFailsIffRaised(GroupsOf(response).keys, GroupsOf(response).vals, RegexPattern(regex), matcher);
  }

  /**
   * On success `getGroupsByRegex` is the restriction of `getGroups` to the
   * groups whose name matches: same ids, same escaped values.
   */
  lemma GroupsByRegexIsSubTable(response: Option<Response>, regex: string,
                                matcher: (string, string) -> MatchOutcome, id: string)
    requires Filtered(GroupsOf(response).keys, GroupsOf(response).vals, RegexPattern(regex), matcher).Some?
    ensures var all := GroupsOf(response);
            var kept := Filtered(all.keys, all.vals, RegexPattern(regex), matcher).value;
            && (id in kept.vals <==> id in all.vals && Outcome(id, all.vals, RegexPattern(regex), matcher) == Matched)
            && (id in kept.vals ==> kept.vals[id] == all.vals[id])
  {
    var all := GroupsOf(response);
    FilteredContents(all.keys, all.vals, RegexPattern(regex), matcher, id);
    GroupsOfEscaped(response);
  }

  lemma FilteredMatchAllTable(g: OMap<string, string>, pattern: string, matcher: (string, string) -> MatchOutcome)
    requires g.Valid()
    requires forall k :: k in g.keys ==> Outcome(k, g.vals, pattern, matcher) == Matched
    requires forall k :: k in g.vals ==> AddSlashes(StripSlashes(g.vals[k])) == g.vals[k]
    ensures Filtered(g.keys, g.vals, pattern, matcher) == Some(g)
  {
    FilteredMatchAllKeys(g.keys, g.vals, pattern, matcher);
    var r := Filtered(g.keys, g.vals, pattern, matcher).value;
    assert r.vals == g.vals by {
      forall k
        ensures k in r.vals <==> k in g.vals
        ensures k in r.vals ==> r.vals[k] == g.vals[k]
      {
        FilteredEntry(g, pattern, matcher, k);
      }
    }
  }

  lemma FilteredEntry(g: OMap<string, string>, pattern: string, matcher: (string, string) -> MatchOutcome, k: string)
    requires g.Valid()
    requires forall k :: k in g.keys ==> Outcome(k, g.vals, pattern, matcher) == Matched
    requires forall k :: k in g.vals ==> AddSlashes(StripSlashes(g.vals[k])) == g.vals[k]
    requires Filtered(g.keys, g.vals, pattern, matcher).Some?
    ensures k in Filtered(g.keys, g.vals, pattern, matcher).value.vals <==> k in g.vals
    ensures k in g.vals ==> Filtered(g.keys, g.vals, pattern, matcher).value.vals[k] == g.vals[k]
  {
    FilteredContents(g.keys, g.vals, pattern, matcher, k);
  }

  /** A pattern matching every name (such as `.*`) returns the whole group table. */
  lemma GroupsByRegexMatchAll(response: Option<Response>, regex: string, matcher: (string, string) -> MatchOutcome)
    requires forall n :: matcher(RegexPattern(regex), n) == Matched
    ensures Filtered(GroupsOf(response).keys, GroupsOf(response).vals, RegexPattern(regex), matcher)
            == Some(GroupsOf(response))
  {
    GroupsOfEscaped(response);
    FilteredMatchAllTable(GroupsOf(response), RegexPattern(regex), matcher);
  }
}
