/** The clone menu of the TypeScript tool: the list of repositories offered,
    optionally ordered by the time of their last push, without the one
    named after the user, and the URL of the repository chosen. GitHub's
    reply (with each `pushed_at` already read as a number), the settings and
    the prompt's answer are parameters. */
module CloneMenu {
  import opened Text

  /** A repository in GitHub's reply; a field the reply lacks is `None`. */
  datatype Repo = Repo(name: string, pushedAt: int, cloneUrl: Option<string>, sshUrl: Option<string>)

  /** An entry of the list sorted by time. */
  datatype Entry = Entry(name: string, lastUpdated: int)

  datatype Settings = Settings(username: string, sorting: string, protocol: string)

  /** Latest push first. */
  predicate SortedDesc(s: seq<Entry>) {
    forall i, j :: 0 <= i < j < |s| ==> s[i].lastUpdated >= s[j].lastUpdated
  }

  /** `e` placed after every entry at least as recent: where a stable sort
      puts a last element. */
  function Insert(s: seq<Entry>, e: Entry): (r: seq<Entry>)
    ensures |r| == |s| + 1
  {
    if s == [] then [e]
    else if s[0].lastUpdated >= e.lastUpdated then [s[0]] + Insert(s[1..], e)
    else [e] + s
  }

  /** Inserting adds `e` and nothing else. */
  lemma {:induction false} InsertFrom(s: seq<Entry>, e: Entry)
    ensures forall x :: x in Insert(s, e) ==> x == e || x in s
  {
    if s != [] && s[0].lastUpdated >= e.lastUpdated {
      InsertFrom(s[1..], e);
    }
  }

  lemma {:induction false} InsertSorted(s: seq<Entry>, e: Entry)
    requires SortedDesc(s)
    ensures SortedDesc(Insert(s, e))
  {
    if s != [] && s[0].lastUpdated >= e.lastUpdated {
      var t := s[1..];
      assert SortedDesc(t) by {
        assert forall i :: 0 <= i < |t| ==> t[i] == s[i + 1];
      }
      InsertSorted(t, e);
      InsertFrom(t, e);
      var r := Insert(t, e);
      forall j | 0 <= j < |r|
        ensures r[j].lastUpdated <= s[0].lastUpdated
      {
        assert r[j] in r;
        if r[j] != e {
          var k :| 0 <= k < |t| && t[k] == r[j];
          assert r[j] == s[k + 1];
        }
      }
      assert Insert(s, e) == [s[0]] + r;
    }
  }

  /** An entry no more recent than the end of a sorted list goes last. */
  lemma {:induction false} InsertAtEnd(s: seq<Entry>, e: Entry)
    requires SortedDesc(s) && (s == [] || s[|s| - 1].lastUpdated >= e.lastUpdated)
    ensures Insert(s, e) == s + [e]
  {
    if s != [] {
      var t := s[1..];
      assert s[0].lastUpdated >= s[|s| - 1].lastUpdated;
      assert SortedDesc(t) by {
        assert forall i :: 0 <= i < |t| ==> t[i] == s[i + 1];
      }
      assert t == [] || t[|t| - 1] == s[|s| - 1];
      InsertAtEnd(t, e);
      assert [s[0]] + (t + [e]) == s + [e];
    }
  }

  /** `Array.prototype.sort` with `b.lastUpdated - a.lastUpdated`: a stable
      sort, latest first. */
  function SortByTime(s: seq<Entry>): (r: seq<Entry>)
    ensures |r| == |s|
  {
    if s == [] then [] else Insert(SortByTime(s[..|s| - 1]), s[|s| - 1])
  }

  /** The sort orders by time. */
  lemma {:induction false} SortByTimeSorted(s: seq<Entry>)
    ensures SortedDesc(SortByTime(s))
  {
    if s != [] {
      SortByTimeSorted(s[..|s| - 1]);
      InsertSorted(SortByTime(s[..|s| - 1]), s[|s| - 1]);
    }
  }

  /** A list already in order is left as it is (the sort is stable), so
      sorting twice is sorting once. */
  lemma {:induction false} SortByTimeKeepsSorted(s: seq<Entry>)
    requires SortedDesc(s)
    ensures SortByTime(s) == s
  {
    if s != [] {
      var front := s[..|s| - 1];
      assert SortedDesc(front);
      SortByTimeKeepsSorted(front);
      InsertAtEnd(front, s[|s| - 1]);
      assert front + [s[|s| - 1]] == s;
    }
  }

  lemma SortByTimeIdempotent(s: seq<Entry>)
    ensures SortByTime(SortByTime(s)) == SortByTime(s)
  {
    SortByTimeSorted(s);
    SortByTimeKeepsSorted(SortByTime(s));
  }

  /** How many entries carry the name `n`. */
  function CountNamed(s: seq<Entry>, n: string): nat {
    if s == [] then 0 else CountNamed(s[..|s| - 1], n) + (if s[|s| - 1].name == n then 1 else 0)
  }

  lemma {:induction false} CountNamedCons(e: Entry, s: seq<Entry>, n: string)
    ensures CountNamed([e] + s, n) == (if e.name == n then 1 else 0) + CountNamed(s, n)
  {
    if s != [] {
      var t := [e] + s;
      assert t[..|t| - 1] == [e] + s[..|s| - 1];
      CountNamedCons(e, s[..|s| - 1], n);
    } else {
      assert ([e] + s)[..0] == [];
    }
  }

  /** Inserting counts the new entry once. */
  lemma {:induction false} CountNamedInsert(s: seq<Entry>, e: Entry, n: string)
    ensures CountNamed(Insert(s, e), n) == CountNamed(s, n) + (if e.name == n then 1 else 0)
  {
    if s == [] {
      CountNamedCons(e, [], n);
    } else if s[0].lastUpdated >= e.lastUpdated {
      CountNamedInsert(s[1..], e, n);
      CountNamedCons(s[0], Insert(s[1..], e), n);
      CountNamedCons(s[0], s[1..], n);
      assert [s[0]] + s[1..] == s;
    } else {
      CountNamedCons(e, s, n);
    }
  }

  /** The sort keeps every name as often as it was there. */
  lemma {:induction false} SortByTimeCounts(s: seq<Entry>, n: string)
    ensures CountNamed(SortByTime(s), n) == CountNamed(s, n)
  {
    if s != [] {
      SortByTimeCounts(s[..|s| - 1], n);
      CountNamedInsert(SortByTime(s[..|s| - 1]), s[|s| - 1], n);
    }
  }

  /** How often `x` occurs. */
  function Count(s: seq<string>, x: string): nat {
    if s == [] then 0 else Count(s[..|s| - 1], x) + (if s[|s| - 1] == x then 1 else 0)
  }

  /** The names in order. */
  function Names(s: seq<Entry>): (r: seq<string>)
    ensures |r| == |s|
  {
    if s == [] then [] else Names(s[..|s| - 1]) + [s[|s| - 1].name]
  }

  lemma {:induction false} NamesCount(s: seq<Entry>, n: string)
    ensures Count(Names(s), n) == CountNamed(s, n)
  {
    if s != [] {
      NamesCount(s[..|s| - 1], n);
      var r := Names(s);
      assert r[..|r| - 1] == Names(s[..|s| - 1]);
    }
  }


  /** The entry that the sort loop pushes for a repository. */
  function EntryOf(repo: Repo): Entry {
    Entry(repo.name, repo.pushedAt)
  }

  function Entries(data: seq<Repo>): (r: seq<Entry>)
    ensures |r| == |data|
  {
    if data == [] then [] else Entries(data[..|data| - 1]) + [EntryOf(data[|data| - 1])]
  }

  /** The reply's names in order. */
  function RepoNames(data: seq<Repo>): (r: seq<string>)
    ensures |r| == |data|
  {
    if data == [] then [] else RepoNames(data[..|data| - 1]) + [data[|data| - 1].name]
  }

  /** The reply's names are the names of its entries. */
  lemma {:induction false} RepoNamesOfEntries(data: seq<Repo>)
    ensures RepoNames(data) == Names(Entries(data))
  {
    if data != [] {
      RepoNamesOfEntries(data[..|data| - 1]);
      var e := Entries(data);
      assert e[..|e| - 1] == Entries(data[..|data| - 1]);
    }
  }

  lemma EntriesCount(data: seq<Repo>, n: string)
    ensures CountNamed(Entries(data), n) == Count(RepoNames(data), n)
  {
    RepoNamesOfEntries(data);
    NamesCount(Entries(data), n);
  }

  /** The names other than `username`, in order. */
  function Without(names: seq<string>, username: string): (r: seq<string>) {
    if names == [] then []
    else
      var front := Without(names[..|names| - 1], username);
      if names[|names| - 1] == username then front else front + [names[|names| - 1]]
  }

  /** `username` is dropped, every other name kept as often as it was there. */
  lemma {:induction false} WithoutCount(names: seq<string>, username: string, x: string)
    ensures Count(Without(names, username), x) == if x == username then 0 else Count(names, x)
  {
    if names != [] {
      var front := Without(names[..|names| - 1], username);
      WithoutCount(names[..|names| - 1], username, x);
      if names[|names| - 1] != username {
        var r := front + [names[|names| - 1]];
        assert r[..|r| - 1] == front;
      }
    }
  }

  /** The user's own name dropped from the sorted entries' names. */
  function WithoutEntries(s: seq<Entry>, username: string): seq<string> {
    if s == [] then []
    else
      var front := WithoutEntries(s[..|s| - 1], username);
      if s[|s| - 1].name == username then front else front + [s[|s| - 1].name]
  }

  lemma {:induction false} WithoutEntriesNames(s: seq<Entry>, username: string)
    ensures WithoutEntries(s, username) == Without(Names(s), username)
  {
    if s != [] {
      WithoutEntriesNames(s[..|s| - 1], username);
      var r := Names(s);
      assert r[..|r| - 1] == Names(s[..|s| - 1]);
    }
  }

  /** The list offered: by time for the `Last updated` setting, else in the
      reply's order; without the user's own name. */
  function RepoList(data: seq<Repo>, s: Settings): seq<string> {
    if s.sorting == "Last updated" then WithoutEntries(SortByTime(Entries(data)), s.username)
    else Without(RepoNames(data), s.username)
  }

  /** Every repository other than the user's appears as often as in the
      reply, the user's never; by time the names come in the order of the
      sorted entries, latest push first. */
  lemma RepoListMembers(data: seq<Repo>, s: Settings, x: string)
    ensures Count(RepoList(data, s), x) == if x == s.username then 0 else Count(RepoNames(data), x)
    ensures s.sorting == "Last updated" ==>
              SortedDesc(SortByTime(Entries(data))) && RepoList(data, s) == Without(Names(SortByTime(Entries(data))), s.username)
  {
    var sorted := SortByTime(Entries(data));
    if s.sorting == "Last updated" {
      SortByTimeSorted(Entries(data));
      WithoutEntriesNames(sorted, s.username);
      WithoutCount(Names(sorted), s.username, x);
      NamesCount(sorted, x);
      SortByTimeCounts(Entries(data), x);
      EntriesCount(data, x);
    } else {
      WithoutCount(RepoNames(data), s.username, x);
    }
  }

  /** `data.find(...)`: the first repository of that name. */
  function Find(data: seq<Repo>, name: string): (r: Option<Repo>)
    ensures r.Some? ==> r.value in data && r.value.name == name
    ensures r.None? <==> forall k :: 0 <= k < |data| ==> data[k].name != name
  {
    if data == [] then None
    else if data[0].name == name then Some(data[0])
    else
      var r := Find(data[1..], name);
      assert forall k :: 1 <= k < |data| ==> data[k] == data[1..][k - 1];
      r
  }

  /** The URL cloned: for a non-empty choice, the first repository of that
      name's HTTPS URL under the `HTTPS` setting, else its SSH URL; nothing
      without a choice, a repository or a non-empty URL. */
  function CloneUrl(data: seq<Repo>, protocol: string, choice: Option<string>): (r: Option<string>)
    ensures r.Some? ==> r.value != [] && choice.Some? && choice.value != [] && Find(data, choice.value).Some?
    ensures r.Some? ==> r == if protocol == "HTTPS" then Find(data, choice.value).value.cloneUrl
                             else Find(data, choice.value).value.sshUrl
  {
    if choice.None? || choice.value == [] then None
    else
      var found := Find(data, choice.value);
      var url := if found.None? then None else if protocol == "HTTPS" then found.value.cloneUrl else found.value.sshUrl;
      if url.Some? && url.value != [] then url else None
  }

  /** A repository found by a name is the first of that name. */
  lemma {:induction false} FindFirst(data: seq<Repo>, name: string, k: nat)
    requires k < |data| && data[k].name == name && forall j :: 0 <= j < k ==> data[j].name != name
    ensures Find(data, name) == Some(data[k])
  {
    if k > 0 {
      assert data[1..][k - 1] == data[k];
      FindFirst(data[1..], name, k - 1);
    }
  }

  /** The `sortedList` loop: each repository's entry pushed and the list
      sorted again after every push. */
  method SortedList(data: seq<Repo>) returns (sorted: seq<Entry>)
    ensures sorted == SortByTime(Entries(data))
  {
    sorted := [];
    for i := 0 to |data|
      invariant sorted == SortByTime(Entries(data[..i]))
    {
      var e := EntryOf(data[i]);
      assert data[..i + 1][..i] == data[..i];
      SortByTimeIdempotent(Entries(data[..i]));
      assert (sorted + [e])[..|sorted|] == sorted;
      sorted := SortByTime(sorted + [e]);
    }
    assert data[..|data|] == data;
  }

  class Clone {
    /** `Clone.repoList`: what the search offers. */
    var repoList: seq<string>

    constructor ()
      ensures repoList == []
    {
      repoList := [];
    }

    /** `listRepos`: the list rebuilt from empty, then the chosen
        repository's URL (`choice` is the prompt's answer, `None` when it
        was interrupted). */
    method ListRepos(data: seq<Repo>, s: Settings, choice: Option<string>) returns (url: Option<string>)
      modifies this
      ensures repoList == RepoList(data, s)
      ensures url == CloneUrl(data, s.protocol, choice)
    {
      repoList := [];
      if s.sorting == "Last updated" {
        var sorted := SortedList(data);
        for i := 0 to |sorted|
          invariant repoList == WithoutEntries(sorted[..i], s.username)
        {
          assert sorted[..i + 1][..i] == sorted[..i];
          if sorted[i].name != s.username {
            repoList := repoList + [sorted[i].name];
          }
        }
        assert sorted[..|sorted|] == sorted;
      } else {
        for i := 0 to |data|
          invariant repoList == Without(RepoNames(data[..i]), s.username)
        {
          assert data[..i + 1][..i] == data[..i];
          if data[i].name != s.username {
            repoList := repoList + [data[i].name];
          }
        }
        assert data[..|data|] == data;
      }
      url := CloneUrl(data, s.protocol, choice);
    }
  }
}
