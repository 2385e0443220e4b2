/** The browser-tab title: the title of the longest route key that is a prefix of the
    lower-cased pathname. */
module PageTitle {
  import opened Text

  const DefaultTitle := "Elyon Tested"

  /** Route key to title, in declaration order. */
  const PageTitles: seq<(string, string)> := [
    ("/landing", "Elyon Tested - Home"),
    ("/login", "Elyon Tested - Login"),
    ("/registration", "Elyon Tested - Registration"),
    ("/dashboard", "Elyon Tested - Dashboard"),
    ("/exam", "Elyon Tested - Exam"),
    ("/exam/submitted", "Elyon Tested - Exam Submitted"),
    ("/exam/cancelled", "Elyon Tested - Exam Cancelled"),
    ("/contactus", "Elyon Tested - Contact Us"),
    ("/forgotid", "Elyon Tested - Forgot ID"),
    ("/admin", "Elyon Tested - Admin")
  ]

  /** `Object.keys(table)`. */
  function Keys(table: seq<(string, string)>): (r: seq<string>)
    ensures |r| == |table|
    ensures forall i :: 0 <= i < |table| ==> r[i] == table[i].0
  {
    if table == [] then [] else [table[0].0] + Keys(table[1..])
  }

  /** The value of the first entry with key `k` ("" when there is none). */
  function ValueOf(table: seq<(string, string)>, k: string): (r: string)
    ensures k in Keys(table) ==> (k, r) in table
  {
    if table == [] then ""
    else if table[0].0 == k then table[0].1
    else ValueOf(table[1..], k)
  }

  predicate Descending(s: seq<string>)
  {
    forall i, j :: 0 <= i < j < |s| ==> |s[i]| >= |s[j]|
  }

  /** One step of the length sort: `k` goes before the first key no longer than
      itself, which keeps keys of equal length in their original order. */
  function Insert(k: string, sorted: seq<string>): seq<string>
  {
    if sorted == [] then [k]
    else if |sorted[0]| <= |k| then [k] + sorted
    else [sorted[0]] + Insert(k, sorted[1..])
  }

  lemma {:induction false} InsertKeeps(k: string, sorted: seq<string>)
    ensures multiset(Insert(k, sorted)) == multiset(sorted) + multiset{k}
  {
    if sorted != [] && |sorted[0]| > |k| {
      InsertKeeps(k, sorted[1..]);
      assert sorted == [sorted[0]] + sorted[1..];
    }
  }

  lemma {:induction false} InsertOrders(k: string, sorted: seq<string>)
    requires Descending(sorted)
    ensures Descending(Insert(k, sorted))
  {
    if sorted != [] && |sorted[0]| > |k| {
      InsertOrders(k, sorted[1..]);
      InsertKeeps(k, sorted[1..]);
      var rest := Insert(k, sorted[1..]);
      var r := [sorted[0]] + rest;
      forall j | 0 <= j < |rest|
        ensures |sorted[0]| >= |rest[j]|
      {
        assert rest[j] in multiset(rest);
        if rest[j] != k {
          assert rest[j] in multiset(sorted[1..]);
          var m :| 0 <= m < |sorted[1..]| && sorted[1..][m] == rest[j];
          assert sorted[m + 1] == rest[j];
        }
      }
      assert Insert(k, sorted) == r;
    }
  }

  /** `.sort((a, b) => b.length - a.length)`: longest first, stable. */
  function SortByLength(keys: seq<string>): seq<string>
  {
    if keys == [] then [] else Insert(keys[0], SortByLength(keys[1..]))
  }

  /** The sort orders by decreasing length and only reorders. */
  lemma {:induction false} SortFacts(keys: seq<string>)
    ensures Descending(SortByLength(keys))
    ensures multiset(SortByLength(keys)) == multiset(keys)
  {
    if keys != [] {
      SortFacts(keys[1..]);
      InsertKeeps(keys[0], SortByLength(keys[1..]));
      InsertOrders(keys[0], SortByLength(keys[1..]));
      assert keys == [keys[0]] + keys[1..];
    }
  }

  /** `.find(route => path.startsWith(route))`, as a position: the first key that is
      a prefix of `path`, or `|keys|` when none is. */
  function FirstPrefix(keys: seq<string>, path: string): (r: nat)
    ensures r <= |keys|
    ensures r < |keys| ==> StartsWith(path, keys[r])
    ensures forall i :: 0 <= i < r ==> !StartsWith(path, keys[i])
  {
    if keys == [] then 0
    else if StartsWith(path, keys[0]) then 0
    else 1 + FirstPrefix(keys[1..], path)
  }

  /** The title for a pathname under `table`. */
  function TitleOf(table: seq<(string, string)>, pathname: string): string
  {
    var path := Lower(pathname);
    var sorted := SortByLength(Keys(table));
    var i := FirstPrefix(sorted, path);
    if i < |sorted| then ValueOf(table, sorted[i]) else DefaultTitle
  }

  function Title(pathname: string): string
  {
    TitleOf(PageTitles, pathname)
  }

  /** `k` is a key that is a prefix of `path`, and no longer key is. */
  predicate LongestPrefix(table: seq<(string, string)>, path: string, k: string)
  {
    k in Keys(table) && StartsWith(path, k)
    && forall j :: 0 <= j < |table| && StartsWith(path, table[j].0) ==> |table[j].0| <= |k|
  }

  /** Two prefixes of one string of the same length are the same. */
  lemma SamePrefix(path: string, a: string, b: string)
    requires StartsWith(path, a) && StartsWith(path, b) && |a| == |b|
    ensures a == b
  {
  }

  /** The title is the one of the longest key that prefixes the lower-cased path. */
  lemma TitleIsLongestMatch(table: seq<(string, string)>, pathname: string, k: string)
    requires LongestPrefix(table, Lower(pathname), k)
    ensures TitleOf(table, pathname) == ValueOf(table, k)
  {
    var path := Lower(pathname);
    var keys := Keys(table);
    var sorted := SortByLength(keys);
    SortFacts(keys);
    assert k in multiset(sorted);
    var jk :| 0 <= jk < |sorted| && sorted[jk] == k;
    var i := FirstPrefix(sorted, path);
    assert i <= jk;
    assert sorted[i] in multiset(keys);
    var ji :| 0 <= ji < |keys| && keys[ji] == sorted[i];
    assert |sorted[i]| <= |k|;
    SamePrefix(path, sorted[i], k);
  }

  /** A path that no key prefixes gets the default title. */
  lemma NoMatchDefault(table: seq<(string, string)>, pathname: string)
    requires forall j :: 0 <= j < |table| ==> !StartsWith(Lower(pathname), table[j].0)
    ensures TitleOf(table, pathname) == DefaultTitle
  {
    var keys := Keys(table);
    var sorted := SortByLength(keys);
    SortFacts(keys);
    forall m | 0 <= m < |sorted|
      ensures !StartsWith(Lower(pathname), sorted[m])
    {
      assert sorted[m] in multiset(keys);
      var j :| 0 <= j < |keys| && keys[j] == sorted[m];
    }
  }

  /** Matching is case-insensitive: the pathname is lower-cased first. */
  lemma TitleIgnoresCase(table: seq<(string, string)>, pathname: string)
    ensures TitleOf(table, Lower(pathname)) == TitleOf(table, pathname)
  {
    LowerIdempotent(pathname);
  }
}
