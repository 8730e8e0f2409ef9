/**
  Site discovery and selection: which LocalWP run directories are sites, the
  hash-to-name map read from `sites.json`, the case-insensitive listing order,
  the numbered menu, and the choice of one site by the number typed.
 */
module Sites {
  import opened Wrappers
  import opened Text
  import opened Ints

  /** One entry of the LocalWP run directory: its name and whether it is a directory. */
  datatype DirEntry = DirEntry(name: String, isDir: bool)

  /** The run directory's router entry, which is not a site. */
  const RouterDir: String := "router"

  /** The hashes of the sites: directory entries other than `router`, in listing order. */
  function SiteHashes(entries: seq<DirEntry>): (hashes: seq<String>)
    ensures |hashes| <= |entries|
    ensures forall h :: h in hashes <==> exists e :: e in entries && e.isDir && e.name != RouterDir && e.name == h
  {
    if entries == [] then []
    else
      var e := entries[0];
      var rest := SiteHashes(entries[1..]);
      assert forall x :: x in entries <==> x == e || x in entries[1..];
      (if e.isDir && e.name != RouterDir then [e.name] else []) + rest
  }

  /** One entry is a candidate exactly when it is a directory other than `router`. */
  lemma SiteHashesSingle(e: DirEntry)
    ensures SiteHashes([e]) == if e.isDir && e.name != RouterDir then [e.name] else []
  {
    assert [e][1..] == [];
  }

  /** The filter keeps the listing order: the candidates of a + b are those of a, then those of b. */
  lemma {:induction false} SiteHashesAppend(a: seq<DirEntry>, b: seq<DirEntry>)
    ensures SiteHashes(a + b) == SiteHashes(a) + SiteHashes(b)
  {
    if a == [] {
      assert a + b == b;
    } else {
      assert (a + b)[1..] == a[1..] + b;
      SiteHashesAppend(a[1..], b);
    }
  }

  /** A value of `sites.json`: an object, whose `name` key may be missing, or some other JSON value. */
  datatype SiteRecord = SiteObject(name: Option<String>) | NotAnObject

  /** The name a record without `name` is given. */
  const Unnamed: String := "(unnamed)"

  /** How many leading records are objects: the loop fails on the first that is not. */
  function ParsedCount(items: seq<(String, SiteRecord)>): (n: nat)
    ensures n <= |items|
    ensures forall j :: 0 <= j < n ==> items[j].1.SiteObject?
    ensures n < |items| ==> items[n].1 == NotAnObject
  {
    if items == [] || items[0].1 == NotAnObject then 0 else 1 + ParsedCount(items[1..])
  }

  /** The map after the first `n` items were stored, later items overriding earlier ones. */
  function MapOfFirst(items: seq<(String, SiteRecord)>, n: nat): map<String, String>
    requires n <= |items|
    requires forall j :: 0 <= j < n ==> items[j].1.SiteObject?
  {
    if n == 0 then map[]
    else MapOfFirst(items, n - 1)[items[n - 1].0 := items[n - 1].1.name.GetOr(Unnamed)]
  }

  /**
    The hash-to-name map: empty when `sites.json` is missing or unreadable
    (`None`), otherwise filled item by item until an item that is not an
    object raises and the warning is printed; what was stored before stays.
   */
  function SiteMapOf(sitesJson: Option<seq<(String, SiteRecord)>>): (siteMap: map<String, String>)
    ensures sitesJson.None? ==> siteMap == map[]
    ensures sitesJson.Some? ==> siteMap.Keys <= set j | 0 <= j < |sitesJson.value| :: sitesJson.value[j].0
  {
    match sitesJson
    case None => map[]
    case Some(items) =>
      MapOfFirstKeys(items, ParsedCount(items));
      MapOfFirst(items, ParsedCount(items))
  }

  /** The loop that fills `site_map` from the parsed `sites.json`. */
  method BuildSiteMap(sitesJson: Option<seq<(String, SiteRecord)>>) returns (siteMap: map<String, String>)
    ensures siteMap == SiteMapOf(sitesJson)
  {
    siteMap := map[];
    if sitesJson.Some? {
      var items := sitesJson.value;
      var i := 0;
      while i < |items| && items[i].1.SiteObject?
        invariant i <= ParsedCount(items)
        invariant siteMap == MapOfFirst(items, i)
      {
        var (hash, record) := items[i];
        siteMap := siteMap[hash := record.name.GetOr(Unnamed)];
        i := i + 1;
      }
    }
  }

  /** `MapOfFirst` holds the keys of the first `n` items, and each key's last stored name. */
  lemma MapOfFirstContents(items: seq<(String, SiteRecord)>, n: nat)
    requires n <= |items|
    requires forall j :: 0 <= j < n ==> items[j].1.SiteObject?
    ensures MapOfFirst(items, n).Keys == set j | 0 <= j < n :: items[j].0
    ensures forall j :: 0 <= j < n && (forall l :: j < l < n ==> items[l].0 != items[j].0) ==>
              MapOfFirst(items, n)[items[j].0] == items[j].1.name.GetOr(Unnamed)
  {
    MapOfFirstKeys(items, n);
    forall j | 0 <= j < n && (forall l :: j < l < n ==> items[l].0 != items[j].0)
      ensures MapOfFirst(items, n)[items[j].0] == items[j].1.name.GetOr(Unnamed)
    {
      MapOfFirstValue(items, n, j);
    }
  }

  lemma {:induction false} MapOfFirstKeys(items: seq<(String, SiteRecord)>, n: nat)
    requires n <= |items|
    requires forall j :: 0 <= j < n ==> items[j].1.SiteObject?
    ensures MapOfFirst(items, n).Keys == set j | 0 <= j < n :: items[j].0
  {
    if n > 0 {
      MapOfFirstKeys(items, n - 1);
      assert (set j | 0 <= j < n :: items[j].0) == (set j | 0 <= j < n - 1 :: items[j].0) + {items[n - 1].0};
    }
  }

  /** The item for a hash that does not occur later decides the hash's name. */
  lemma {:induction false} MapOfFirstValue(items: seq<(String, SiteRecord)>, n: nat, j: nat)
    requires n <= |items|
    requires forall k :: 0 <= k < n ==> items[k].1.SiteObject?
    requires j < n && forall l :: j < l < n ==> items[l].0 != items[j].0
    ensures items[j].0 in MapOfFirst(items, n)
    ensures MapOfFirst(items, n)[items[j].0] == items[j].1.name.GetOr(Unnamed)
  {
    if j < n - 1 {
      MapOfFirstValue(items, n - 1, j);
    }
  }

  /**
    For a `sites.json` object (its keys are distinct) every hash before the
    first non-object value maps to that value's `name`, or to `(unnamed)`, and
    no other hash is in the map.
   */
  lemma SiteMapOfContents(items: seq<(String, SiteRecord)>)
    requires forall j, l :: 0 <= j < l < |items| ==> items[j].0 != items[l].0
    ensures var m, n := SiteMapOf(Some(items)), ParsedCount(items);
            && m.Keys == (set j | 0 <= j < n :: items[j].0)
            && forall j :: 0 <= j < n ==> m[items[j].0] == items[j].1.name.GetOr(Unnamed)
  {
    MapOfFirstContents(items, ParsedCount(items));
  }

  /** The placeholder a hash without an entry is listed under. */
  const Unknown: String := "(unknown)"

  function DisplayName(siteMap: map<String, String>, hash: String): String {
    if hash in siteMap then siteMap[hash] else Unknown
  }

  /** The listing's sort key: the display name, lowercased. */
  function SortKey(siteMap: map<String, String>, hash: String): (key: String)
    ensures forall i :: 0 <= i < |key| ==> !('A' <= key[i] <= 'Z')
  {
    Lower(DisplayName(siteMap, hash))
  }

  /** Python's `<=` on `str`: lexicographic by code point, so a prefix (`""` included) comes first. */
  predicate LexLeq(a: String, b: String)
    ensures StartsWith(b, a) ==> LexLeq(a, b)
  {
    if a == [] then true
    else if b == [] then false
    else if a[0] < b[0] then true
    else a[0] == b[0] && LexLeq(a[1..], b[1..])
  }

  /** The first position where two strings differ decides: the smaller code point comes first. */
  lemma {:induction false} LexLeqFirstDifference(a: String, b: String, i: nat)
    requires i < |a| && i < |b| && a[..i] == b[..i] && a[i] < b[i]
    ensures LexLeq(a, b) && !LexLeq(b, a)
  {
    if i > 0 {
      assert a[0] == a[..i][0] == b[..i][0] == b[0];
      assert a[1..][..i - 1] == a[..i][1..] == b[..i][1..] == b[1..][..i - 1];
      LexLeqFirstDifference(a[1..], b[1..], i - 1);
    }
  }

  lemma {:induction false} LexLeqTotal(a: String, b: String)
    ensures LexLeq(a, b) || LexLeq(b, a)
  {
    if a != [] && b != [] && a[0] == b[0] {
      LexLeqTotal(a[1..], b[1..]);
    }
  }

  lemma {:induction false} LexLeqAntisymmetric(a: String, b: String)
    requires LexLeq(a, b) && LexLeq(b, a)
    ensures a == b
  {
    if a != [] {
      LexLeqAntisymmetric(a[1..], b[1..]);
      assert a == [a[0]] + a[1..] && b == [b[0]] + b[1..];
    }
  }

  lemma {:induction false} LexLeqTransitive(a: String, b: String, c: String)
    requires LexLeq(a, b) && LexLeq(b, c)
    ensures LexLeq(a, c)
  {
    if a != [] && a[0] == b[0] && b[0] == c[0] {
      LexLeqTransitive(a[1..], b[1..], c[1..]);
    }
  }

  /** Inserts `h` before the first hash whose key is not smaller, so equal keys keep their order. */
  function Insert(siteMap: map<String, String>, h: String, sorted: seq<String>): (r: seq<String>)
    ensures multiset(r) == multiset([h] + sorted)
  {
    if sorted == [] || LexLeq(SortKey(siteMap, h), SortKey(siteMap, sorted[0])) then [h] + sorted
    else
      assert sorted == [sorted[0]] + sorted[1..];
      [sorted[0]] + Insert(siteMap, h, sorted[1..])
  }

  /** `sorted(hashes, key=...)`: a stable sort by `SortKey`. */
  function SortSites(siteMap: map<String, String>, hashes: seq<String>): (r: seq<String>)
    ensures multiset(r) == multiset(hashes)
  {
    if hashes == [] then []
    else
      assert hashes == [hashes[0]] + hashes[1..];
      Insert(siteMap, hashes[0], SortSites(siteMap, hashes[1..]))
  }

  predicate SortedByKey(siteMap: map<String, String>, s: seq<String>) {
    forall i, j :: 0 <= i < j < |s| ==> LexLeq(SortKey(siteMap, s[i]), SortKey(siteMap, s[j]))
  }

  /** The hashes of `s` whose key is `k`, in their order in `s`. */
  function WithKey(siteMap: map<String, String>, s: seq<String>, k: String): seq<String> {
    Filter(s, h => SortKey(siteMap, h) == k)
  }

  /** The elements of `s` that `keep` accepts, in their order in `s`. */
  function Filter(s: seq<String>, keep: String -> bool): seq<String> {
    if s == [] then []
    else (if keep(s[0]) then [s[0]] else []) + Filter(s[1..], keep)
  }

  lemma {:induction false} FilterAppend(a: seq<String>, b: seq<String>, keep: String -> bool)
    ensures Filter(a + b, keep) == Filter(a, keep) + Filter(b, keep)
  {
    if a == [] {
      assert a + b == b;
    } else {
      assert (a + b)[1..] == a[1..] + b;
      FilterAppend(a[1..], b, keep);
    }
  }

  lemma SortedCons(siteMap: map<String, String>, x: String, s: seq<String>)
    requires SortedByKey(siteMap, s)
    requires forall y :: y in s ==> LexLeq(SortKey(siteMap, x), SortKey(siteMap, y))
    ensures SortedByKey(siteMap, [x] + s)
  {
    var t := [x] + s;
    forall i, j | 0 <= i < j < |t|
      ensures LexLeq(SortKey(siteMap, t[i]), SortKey(siteMap, t[j]))
    {
      if i == 0 {
        assert t[j] in s;
      } else {
        assert t[i] == s[i - 1] && t[j] == s[j - 1];
      }
    }
  }

  lemma {:induction false} InsertSorted(siteMap: map<String, String>, h: String, sorted: seq<String>)
    requires SortedByKey(siteMap, sorted)
    ensures SortedByKey(siteMap, Insert(siteMap, h, sorted))
  {
    var kh := SortKey(siteMap, h);
    if sorted == [] || LexLeq(kh, SortKey(siteMap, sorted[0])) {
      forall y | y in sorted
        ensures LexLeq(kh, SortKey(siteMap, y))
      {
        var j :| 0 <= j < |sorted| && sorted[j] == y;
        if j > 0 {
          LexLeqTransitive(kh, SortKey(siteMap, sorted[0]), SortKey(siteMap, y));
        }
      }
      SortedCons(siteMap, h, sorted);
    } else {
      var first, rest := sorted[0], sorted[1..];
      var k0 := SortKey(siteMap, first);
      LexLeqTotal(kh, k0);
      InsertSorted(siteMap, h, rest);
      var inserted := Insert(siteMap, h, rest);
      forall y | y in inserted
        ensures LexLeq(k0, SortKey(siteMap, y))
      {
        assert y in multiset(inserted);
        assert y == h || y in rest;
        if y != h {
          var j :| 0 <= j < |rest| && rest[j] == y;
          assert sorted[j + 1] == y;
        }
      }
      SortedCons(siteMap, first, inserted);
    }
  }

  lemma WithKeyAppend(siteMap: map<String, String>, a: seq<String>, b: seq<String>, k: String)
    ensures WithKey(siteMap, a + b, k) == WithKey(siteMap, a, k) + WithKey(siteMap, b, k)
  {
    FilterAppend(a, b, h => SortKey(siteMap, h) == k);
  }

  /** Inserting into a sorted list keeps, for every key, the hashes with that key in the order `[h] + sorted` has them. */
  lemma {:induction false} InsertWithKey(siteMap: map<String, String>, h: String, sorted: seq<String>, k: String)
    requires SortedByKey(siteMap, sorted)
    ensures WithKey(siteMap, Insert(siteMap, h, sorted), k) == WithKey(siteMap, [h] + sorted, k)
  {
    var kh := SortKey(siteMap, h);
    if sorted != [] && !LexLeq(kh, SortKey(siteMap, sorted[0])) {
      var first, rest := sorted[0], sorted[1..];
      LexLeqTotal(kh, SortKey(siteMap, first));
      var inserted := Insert(siteMap, h, rest);
      assert Insert(siteMap, h, sorted) == [first] + inserted;
      assert sorted == [first] + rest;
      InsertWithKey(siteMap, h, rest, k);
      WithKeyAppend(siteMap, [first], inserted, k);
      WithKeyAppend(siteMap, [h], rest, k);
      WithKeyAppend(siteMap, [h], sorted, k);
      WithKeyAppend(siteMap, [first], rest, k);
      var fh, ff, wr := WithKey(siteMap, [h], k), WithKey(siteMap, [first], k), WithKey(siteMap, rest, k);
      assert fh == [] || ff == [] by {
        WithKeySingle(siteMap, h, k);
        WithKeySingle(siteMap, first, k);
      }
      assert ff + (fh + wr) == fh + (ff + wr);
    }
  }

  lemma WithKeySingle(siteMap: map<String, String>, h: String, k: String)
    ensures WithKey(siteMap, [h], k) == if SortKey(siteMap, h) == k then [h] else []
  {
    var keep := x => SortKey(siteMap, x) == k;
    assert [h][1..] == [];
    assert Filter([h], keep) == (if keep(h) then [h] else []) + Filter([], keep);
  }

  lemma {:induction false} SortSitesSorted(siteMap: map<String, String>, hashes: seq<String>)
    ensures SortedByKey(siteMap, SortSites(siteMap, hashes))
  {
    if hashes != [] {
      SortSitesSorted(siteMap, hashes[1..]);
      InsertSorted(siteMap, hashes[0], SortSites(siteMap, hashes[1..]));
    }
  }

  lemma {:induction false} SortSitesStable(siteMap: map<String, String>, hashes: seq<String>, k: String)
    ensures WithKey(siteMap, SortSites(siteMap, hashes), k) == WithKey(siteMap, hashes, k)
  {
    if hashes != [] {
      var first, tail := hashes[0], hashes[1..];
      var rest := SortSites(siteMap, tail);
      SortSitesSorted(siteMap, tail);
      SortSitesStable(siteMap, tail, k);
      InsertWithKey(siteMap, first, rest, k);
      WithKeyAppend(siteMap, [first], rest, k);
      WithKeySingle(siteMap, first, k);
    }
  }

  /**
    The listing order: sorted by lowercased display name, a permutation of
    the hashes, and stable, since for every key the hashes with that key keep
    their listing order.
   */
  lemma SortSitesCorrect(siteMap: map<String, String>, hashes: seq<String>)
    ensures SortedByKey(siteMap, SortSites(siteMap, hashes))
    ensures multiset(SortSites(siteMap, hashes)) == multiset(hashes)
    ensures forall k :: WithKey(siteMap, SortSites(siteMap, hashes), k) == WithKey(siteMap, hashes, k)
  {
    SortSitesSorted(siteMap, hashes);
    forall k
      ensures WithKey(siteMap, SortSites(siteMap, hashes), k) == WithKey(siteMap, hashes, k)
    {
      SortSitesStable(siteMap, hashes, k);
    }
  }

  /** One line of the menu: the number to type, the hash, the display name and the active marker. */
  datatype MenuEntry = MenuEntry(number: int, hash: String, name: String, active: bool)

  /** The numbered menu; `activeHashes` are those whose MySQL socket exists. */
  function Menu(siteMap: map<String, String>, sorted: seq<String>, activeHashes: set<String>): (menu: seq<MenuEntry>)
    ensures |menu| == |sorted|
    ensures forall i :: 0 <= i < |sorted| ==> menu[i].hash == sorted[i] && menu[i].number == i + 1
    ensures forall i :: 0 <= i < |sorted| ==>
              menu[i].name == DisplayName(siteMap, sorted[i]) && menu[i].active == (sorted[i] in activeHashes)
  {
    seq(|sorted|, i requires 0 <= i < |sorted| =>
      MenuEntry(i + 1, sorted[i], DisplayName(siteMap, sorted[i]), sorted[i] in activeHashes))
  }

  /**
    `sorted_hashes[int(choice) - 1]` with Python's indexing: an index in
    `[-len, len - 1]` counts from the end when negative; a choice `int()`
    rejects, or an index outside, is the invalid selection (`None`).
   */
  function SelectSite(sorted: seq<String>, choice: String): (selected: Option<String>)
    ensures selected.Some? ==> selected.value in sorted
  {
    match ParseInt(choice)
    case None => None
    case Some(n) =>
      var index := n - 1;
      if -|sorted| <= index < |sorted| then
        Some(sorted[if index >= 0 then index else |sorted| + index])
      else None
  }

  /** A choice is valid exactly when it reads as a number `n` with `1 - len <= n <= len`, and it then names a listed site. */
  lemma SelectSiteValid(sorted: seq<String>, choice: String)
    ensures SelectSite(sorted, choice).Some? <==>
              ParseInt(choice).Some? && 1 - |sorted| <= ParseInt(choice).value <= |sorted|
    ensures SelectSite(sorted, choice).Some? ==> SelectSite(sorted, choice).value in sorted
  {
  }

  /** Typing `n` (1-based) selects the n-th listed site; `0` and negative numbers count back from the last one. */
  lemma SelectSiteNumber(sorted: seq<String>, choice: String, n: int)
    requires ParseInt(choice) == Some(n) && 1 - |sorted| <= n <= |sorted|
    ensures n >= 1 ==> SelectSite(sorted, choice) == Some(sorted[n - 1])
    ensures n <= 0 ==> SelectSite(sorted, choice) == Some(sorted[|sorted| + n - 1])
  {
  }

  /** Other spellings `int()` accepts select the same site: `"+2"` and `" 2"` pick the second one. */
  lemma SelectSiteSpellings(sorted: seq<String>)
    requires |sorted| >= 2
    ensures SelectSite(sorted, "+2") == Some(sorted[1])
    ensures SelectSite(sorted, " 2") == Some(sorted[1])
  {
    ParseIntPlusSign();
    SelectSiteNumber(sorted, "+2", 2);
    assert " " + "2" + "" == " 2";
    assert IsSpace(' ');
    ParseIntIgnoresSpace(" ", "2", "");
    ParseIntToString(2);
    assert IntToString(2) == "2";
    SelectSiteNumber(sorted, " 2", 2);
  }

  /** The number the menu shows next to a site selects that site. */
  lemma MenuNumberSelects(siteMap: map<String, String>, sorted: seq<String>, activeHashes: set<String>, i: nat)
    requires i < |sorted|
    ensures var entry := Menu(siteMap, sorted, activeHashes)[i];
            SelectSite(sorted, IntToString(entry.number)) == Some(entry.hash)
  {
    ParseIntToString(i + 1);
    SelectSiteNumber(sorted, IntToString(i + 1), i + 1);
  }

  /** `"0"` gives index -1: the last site, not an error. */
  lemma SelectSiteZero(sorted: seq<String>)
    requires |sorted| >= 1
    ensures SelectSite(sorted, "0") == Some(sorted[|sorted| - 1])
  {
    assert IntToString(0) == "0";
    ParseIntToString(0);
    SelectSiteNumber(sorted, "0", 0);
  }

  /** `"99"` with three sites is an invalid selection. */
  lemma SelectSiteOutOfRange(sorted: seq<String>)
    requires |sorted| == 3
    ensures SelectSite(sorted, "99") == None
  {
    ParseIntToString(99);
    assert IntToString(99) == "99";
  }

  /** A choice whose last non-blank character is not a digit, such as `"abc"` or `"-"`, is rejected. */
  lemma SelectSiteNotNumeric(sorted: seq<String>, choice: String)
    requires IntTrimmed(choice) && choice != [] && !IsDigit(choice[|choice| - 1])
    ensures SelectSite(sorted, choice) == None
  {
    IntStripTrimmed(choice);
  }
}
