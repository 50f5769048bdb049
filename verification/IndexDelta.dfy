/** getDelta: what turns one index into another, and what applying it does. */
module IndexDelta {

  import opened Options

  type Path = string

  datatype Result<T> = Ok(value: T) | Err(message: string)

  /** SimpleEntry; directories have no hash. */
  datatype Entry = Entry(path: Path, hash: string) {
    predicate IsDirectory() {
      hash == ""
    }
  }

  /** A stamp as parsed JSON; an entry object without a key, or whose value is no string, is None. */
  datatype Stamp = Stamp(entries: Option<seq<Option<Entry>>>, meta: Option<seq<string>>)

  datatype Delta = Delta(adds: seq<Entry>, removes: seq<Entry>, metaAdds: seq<string>, metaRemoves: seq<string>) {
    predicate IsEmpty() {
      adds == [] && removes == [] && metaAdds == [] && metaRemoves == []
    }
  }

  // ----- the order of paths -----

  /** std::string's operator<. */
  predicate Less(a: Path, b: Path) {
    b != "" && (a == "" || a[0] < b[0] || (a[0] == b[0] && Less(a[1..], b[1..])))
  }

  lemma {:induction false} LessTotal(a: Path, b: Path)
    ensures Less(a, b) || a == b || Less(b, a)
  {
    if a != "" && b != "" {
      LessTotal(a[1..], b[1..]);
      assert a == [a[0]] + a[1..] && b == [b[0]] + b[1..];
    }
  }

  lemma {:induction false} LessTransitive(a: Path, b: Path, c: Path)
    requires Less(a, b) && Less(b, c)
    ensures Less(a, c)
  {
    if a != "" && a[0] == b[0] && b[0] == c[0] {
      LessTransitive(a[1..], b[1..], c[1..]);
    }
  }

  lemma {:induction false} LessIrreflexive(a: Path)
    ensures !Less(a, a)
  {
    if a != "" {
      LessIrreflexive(a[1..]);
    }
  }

  /** A parent comes before its children. */
  lemma {:induction false} PrefixLess(a: Path, b: Path)
    requires a < b
    ensures Less(a, b)
  {
    if a != "" {
      assert a[0] == b[0] && a[1..] < b[1..];
      PrefixLess(a[1..], b[1..]);
    }
  }

  /** Not after. */
  predicate AtMost(a: Path, b: Path) {
    !Less(b, a)
  }

  lemma AtMostTransitive(a: Path, b: Path, c: Path)
    requires AtMost(a, b) && AtMost(b, c)
    ensures AtMost(a, c)
  {
    hide Less;
    LessTotal(a, b);
    LessTotal(b, c);
    if Less(c, a) {
      if Less(a, b) {
        LessTransitive(c, a, b);
      }
    }
  }

  lemma AtMostTotal(a: Path, b: Path)
    ensures AtMost(a, b) || AtMost(b, a)
  {
    hide Less;
    if Less(a, b) && Less(b, a) {
      LessTransitive(a, b, a);
      LessIrreflexive(a);
    }
  }

  /** Before in the wanted direction, or level. */
  predicate InOrder(a: Path, b: Path, ascending: bool) {
    if ascending then AtMost(a, b) else AtMost(b, a)
  }

  lemma InOrderTransitive(a: Path, b: Path, c: Path, ascending: bool)
    requires InOrder(a, b, ascending) && InOrder(b, c, ascending)
    ensures InOrder(a, c, ascending)
  {
    hide AtMost;
    if ascending {
      AtMostTransitive(a, b, c);
    } else {
      AtMostTransitive(c, b, a);
    }
  }

  lemma InOrderTotal(a: Path, b: Path, ascending: bool)
    ensures InOrder(a, b, ascending) || InOrder(b, a, ascending)
  {
    hide AtMost;
    AtMostTotal(a, b);
  }

  /** Sorted by path, up or down. */
  ghost predicate Sorted(s: seq<Entry>, ascending: bool) {
    forall i, j :: 0 <= i < j < |s| ==> InOrder(s[i].path, s[j].path, ascending)
  }

  lemma InsertSorted(s: seq<Entry>, k: nat, e: Entry, ascending: bool)
    requires Sorted(s, ascending) && k <= |s|
    requires k > 0 ==> InOrder(s[k - 1].path, e.path, ascending)
    requires forall j :: k <= j < |s| ==> InOrder(e.path, s[j].path, ascending)
    ensures Sorted(s[..k] + [e] + s[k..], ascending)
  {
    hide InOrder;
    forall i | 0 <= i < k
      ensures InOrder(s[i].path, e.path, ascending)
    {
      if i < k - 1 {
        InOrderTransitive(s[i].path, s[k - 1].path, e.path, ascending);
      }
    }
    var r := s[..k] + [e] + s[k..];
    forall i, j | 0 <= i < j < |r|
      ensures InOrder(r[i].path, r[j].path, ascending)
    {
      var a, b := if i <= k then i else i - 1, if j <= k then j else j - 1;
      assert i != k ==> r[i] == s[a];
      assert j != k ==> r[j] == s[b];
    }
  }

  lemma InsertCounts(s: seq<Entry>, k: nat, e: Entry)
    requires k <= |s|
    ensures multiset(s[..k] + [e] + s[k..]) == multiset(s) + multiset{e}
  {
    assert s == s[..k] + s[k..];
  }

  // ----- getDelta -----

  method ParseStampEntries(stamp: Stamp) returns (r: Result<seq<Entry>>)
    ensures r.Ok? <==> stamp.entries.Some? && None !in stamp.entries.value
    ensures r.Ok? ==> |r.value| == |stamp.entries.value| && forall i ::
      0 <= i < |r.value| ==> Some(r.value[i]) == stamp.entries.value[i]
  {
    if stamp.entries.None? {
      return Err("Stamp entries not found");
    }
    var result := [];
    for i := 0 to |stamp.entries.value|
      invariant |result| == i && forall k :: 0 <= k < i ==> Some(result[k]) == stamp.entries.value[k]
    {
      match stamp.entries.value[i]
      case None => return Err("cannot get value");
      case Some(e) => result := result + [e];
    }
    return Ok(result);
  }

  method SortByPath(s: seq<Entry>, ascending: bool) returns (r: seq<Entry>)
    ensures multiset(r) == multiset(s) && Sorted(r, ascending)
  {
    r := [];
    for i := 0 to |s|
      invariant multiset(r) == multiset(s[..i]) && Sorted(r, ascending)
    {
      assert s[..i + 1] == s[..i] + [s[i]];
      hide Sorted;
      r := Insert(r, s[i], ascending);
    }
    assert s[..|s|] == s;
  }

  method Insert(s: seq<Entry>, e: Entry, ascending: bool) returns (r: seq<Entry>)
    requires Sorted(s, ascending)
    ensures multiset(r) == multiset(s) + multiset{e} && Sorted(r, ascending)
  {
    hide Sorted, InOrder;
    var k := |s|;
    while k > 0 && !InOrder(s[k - 1].path, e.path, ascending)
      invariant 0 <= k <= |s|
      invariant forall j :: k <= j < |s| ==> InOrder(e.path, s[j].path, ascending)
    {
      InOrderTotal(s[k - 1].path, e.path, ascending);
      k := k - 1;
    }
    InsertSorted(s, k, e, ascending);
    InsertCounts(s, k, e);
    r := s[..k] + [e] + s[k..];
  }

  predicate SameKindAt(s: seq<Entry>, e: Entry) {
    exists i :: 0 <= i < |s| && s[i].path == e.path && s[i].IsDirectory() == e.IsDirectory()
  }

  /** Each entry of s as often as it occurs there, unless `dropped`. */
  ghost predicate Kept(r: seq<Entry>, s: seq<Entry>, dropped: Entry -> bool) {
    forall e :: multiset(r)[e] == if dropped(e) then 0 else multiset(s)[e]
  }

  lemma KeptNext(r: seq<Entry>, s: seq<Entry>, e: Entry, dropped: Entry -> bool)
    requires Kept(r, s, dropped)
    ensures Kept(if dropped(e) then r else r + [e], s + [e], dropped)
  {
  }

  lemma {:induction false} MemberCount<T>(s: seq<T>, x: T)
    ensures x in s <==> multiset(s)[x] > 0
  {
  }

  lemma KeptMembers(r: seq<Entry>, s: seq<Entry>, dropped: Entry -> bool)
    requires Kept(r, s, dropped)
    ensures forall e :: e in r <==> e in s && !dropped(e)
  {
    forall e
      ensures e in r <==> e in s && !dropped(e)
    {
      MemberCount(r, e);
      MemberCount(s, e);
    }
  }

  method CollectAdds(source: seq<Entry>, destination: seq<Entry>) returns (adds: seq<Entry>)
    requires Sorted(source, true)
    ensures Kept(adds, source, e => e in destination) && Sorted(adds, true)
  {
    hide InOrder;
    adds := [];
    ghost var dropped := (e: Entry) => e in destination;
    for i := 0 to |source|
      invariant Kept(adds, source[..i], dropped) && Sorted(adds, true)
    {
      assert source[..i + 1] == source[..i] + [source[i]];
      KeptNext(adds, source[..i], source[i], dropped);
      if source[i] in destination {
        continue;
      }
      KeptMembers(adds, source[..i], dropped);
      assert forall j :: 0 <= j < |adds| ==> adds[j] in source[..i];
      adds := adds + [source[i]];
    }
    assert source[..|source|] == source;
  }

  method CollectRemoves(source: seq<Entry>, destination: seq<Entry>) returns (removes: seq<Entry>)
    ensures Kept(removes, destination, e => SameKindAt(source, e)) && Sorted(removes, false)
  {
    hide SameKindAt, Sorted;
    removes := [];
    ghost var dropped := (e: Entry) => SameKindAt(source, e);
    for i := 0 to |destination|
      invariant Kept(removes, destination[..i], dropped)
    {
      assert destination[..i + 1] == destination[..i] + [destination[i]];
      KeptNext(removes, destination[..i], destination[i], dropped);
      if !SameKindAt(source, destination[i]) {
        removes := removes + [destination[i]];
      }
    }
    assert destination[..|destination|] == destination;
    removes := SortByPath(removes, false);
  }

  predicate Distinct(ids: seq<string>) {
    forall i, j :: 0 <= i < j < |ids| ==> ids[i] != ids[j]
  }

  /** The ids of `a` that are not in `b`, each once, in the order the hash map happens to have. */
  method MetaDifference(a: seq<string>, b: seq<string>) returns (ids: seq<string>)
    ensures forall id :: id in ids <==> id in a && id !in b
    ensures Distinct(ids)
  {
    var metaIds: set<string> := {};
    for i := 0 to |a|
      invariant forall id :: id in metaIds <==> id in a[..i]
    {
      metaIds := metaIds + {a[i]};
    }
    for i := 0 to |b|
      invariant forall id :: id in metaIds <==> id in a && id !in b[..i]
    {
      metaIds := metaIds - {b[i]};
    }
    ids := [];
    ghost var all := metaIds;
    while metaIds != {}
      invariant metaIds <= all && forall id :: id in ids <==> id in all && id !in metaIds
      invariant Distinct(ids)
      decreases metaIds
    {
      var id :| id in metaIds;
      metaIds := metaIds - {id};
      ids := ids + [id];
    }
  }

  /** The entries of a stamp that parses. */
  ghost function EntriesOf(stamp: Stamp): seq<Entry>
    requires stamp.entries.Some? && None !in stamp.entries.value
  {
    seq(|stamp.entries.value|, i requires 0 <= i < |stamp.entries.value| => stamp.entries.value[i].value)
  }

  ghost predicate Parses(stamp: Stamp) {
    stamp.entries.Some? && None !in stamp.entries.value && stamp.meta.Some?
  }

  ghost predicate IsDelta(source: seq<Entry>, destination: seq<Entry>, sourceMeta: seq<string>,
        destinationMeta: seq<string>, d: Delta) {
    && Kept(d.adds, source, e => e in destination)
    && Sorted(d.adds, true)
    && Kept(d.removes, destination, e => SameKindAt(source, e))
    && Sorted(d.removes, false)
    && (forall id :: id in d.metaAdds <==> id in sourceMeta && id !in destinationMeta)
    && (forall id :: id in d.metaRemoves <==> id in destinationMeta && id !in sourceMeta)
    && Distinct(d.metaAdds) && Distinct(d.metaRemoves)
  }

  method GetDelta(source: Stamp, destination: Stamp) returns (r: Result<Delta>)
    ensures r.Ok? <==> Parses(source) && Parses(destination)
    ensures r.Ok? ==> IsDelta(EntriesOf(source), EntriesOf(destination), source.meta.value, destination.meta.value,
      r.value)
  {
    var s := ParseStampEntries(source);
    if s.Err? {
      return Err(s.message);
    }
    var t := ParseStampEntries(destination);
    if t.Err? {
      return Err(t.message);
    }
    assert s.value == EntriesOf(source) && t.value == EntriesOf(destination);
    var from := SortByPath(s.value, true);
    var to := SortByPath(t.value, true);
    var adds := CollectAdds(from, to);
    var removes := CollectRemoves(from, to);
    if source.meta.None? || destination.meta.None? {
      return Err("Stamp meta not found");
    }
    var metaAdds := MetaDifference(source.meta.value, destination.meta.value);
    var metaRemoves := MetaDifference(destination.meta.value, source.meta.value);
    SortIrrelevant(s.value, t.value, from, to, adds, removes);
    return Ok(Delta(adds, removes, metaAdds, metaRemoves));
  }

  lemma SameMembers(s: seq<Entry>, t: seq<Entry>)
    requires multiset(s) == multiset(t)
    ensures forall e :: e in s <==> e in t
    ensures forall e :: SameKindAt(s, e) <==> SameKindAt(t, e)
  {
    forall e
      ensures e in s <==> e in t
    {
      MemberCount(s, e);
      MemberCount(t, e);
    }
    KindTransfers(s, t);
    KindTransfers(t, s);
  }

  lemma KindTransfers(s: seq<Entry>, t: seq<Entry>)
    requires forall e :: e in s ==> e in t
    ensures forall e :: SameKindAt(s, e) ==> SameKindAt(t, e)
  {
    forall e | SameKindAt(s, e)
      ensures SameKindAt(t, e)
    {
      var i :| 0 <= i < |s| && s[i].path == e.path && s[i].IsDirectory() == e.IsDirectory();
      assert s[i] in t;
    }
  }

  lemma SortIrrelevant(s: seq<Entry>, t: seq<Entry>, from: seq<Entry>, to: seq<Entry>, adds: seq<Entry>,
        removes: seq<Entry>)
    requires multiset(from) == multiset(s) && multiset(to) == multiset(t)
    requires Kept(adds, from, e => e in to) && Kept(removes, to, e => SameKindAt(from, e))
    ensures Kept(adds, s, e => e in t) && Kept(removes, t, e => SameKindAt(s, e))
  {
    SameMembers(from, s);
    SameMembers(to, t);
  }

  // ----- applying a delta -----

  /** An index as a map from path to hash. */
  type Tree = map<Path, string>

  ghost predicate UniquePaths(s: seq<Entry>) {
    forall i, j :: 0 <= i < j < |s| ==> s[i].path != s[j].path
  }

  ghost predicate TreeOf(s: seq<Entry>, t: Tree) {
    UniquePaths(s) && forall e: Entry :: e in s <==> e.path in t && t[e.path] == e.hash
  }

  /** Every proper ancestor of every path is there, as a directory. */
  ghost predicate WellFormed(t: Tree) {
    forall p, i :: p in t && 0 <= i < |p| && p[i] == '/' ==> p[..i] in t && t[p[..i]] == ""
  }

  /** Removes come first, each in the order of the list, then the adds. */
  ghost function RemoveUpTo(t: Tree, removes: seq<Entry>, k: nat): Tree
    requires k <= |removes|
  {
    if k == 0 then t else RemoveUpTo(t, removes, k - 1) - {removes[k - 1].path}
  }

  ghost function AddUpTo(t: Tree, adds: seq<Entry>, k: nat): Tree
    requires k <= |adds|
  {
    if k == 0 then t else AddUpTo(t, adds, k - 1)[adds[k - 1].path := adds[k - 1].hash]
  }

  lemma {:induction false} RemovedPaths(t: Tree, removes: seq<Entry>, k: nat)
    requires k <= |removes|
    ensures var r := RemoveUpTo(t, removes, k);
      && (forall p :: p in r <==> p in t && forall j :: 0 <= j < k ==> removes[j].path != p)
      && (forall p :: p in r ==> r[p] == t[p])
  {
    if k > 0 {
      RemovedPaths(t, removes, k - 1);
    }
  }

  lemma {:induction false} AddedPaths(t: Tree, adds: seq<Entry>, k: nat)
    requires k <= |adds| && forall i, j :: 0 <= i < j < |adds| ==> adds[i].path != adds[j].path
    ensures var r := AddUpTo(t, adds, k);
      && (forall p :: p in r <==> p in t || exists j :: 0 <= j < k && adds[j].path == p)
      && (forall j :: 0 <= j < k ==> r[adds[j].path] == adds[j].hash)
      && (forall p :: p in t && (forall j :: 0 <= j < k ==> adds[j].path != p) ==> p in r && r[p] == t[p])
  {
    if k > 0 {
      AddedPaths(t, adds, k - 1);
    }
  }

  /** What a delta between two indexes with unique paths lists, in terms of the trees. */
  ghost predicate Lists(d: Delta, s: Tree, t: Tree) {
    && (forall e :: e in d.adds <==> e.path in s && s[e.path] == e.hash && !(e.path in t && t[e.path] == e.hash))
    && (forall e :: e in d.removes <==>
          e.path in t && t[e.path] == e.hash && !(e.path in s && (s[e.path] == "") == (e.hash == "")))
    && (forall i, j :: 0 <= i < j < |d.adds| ==> d.adds[i].path != d.adds[j].path)
    && Sorted(d.adds, true) && Sorted(d.removes, false)
  }

  lemma KindInTree(source: seq<Entry>, s: Tree, e: Entry)
    requires TreeOf(source, s)
    ensures SameKindAt(source, e) <==> e.path in s && (s[e.path] == "") == (e.hash == "")
  {
    if SameKindAt(source, e) {
      var i :| 0 <= i < |source| && source[i].path == e.path && source[i].IsDirectory() == e.IsDirectory();
      assert source[i] in source;
    }
    if e.path in s {
      assert Entry(e.path, s[e.path]) in source;
    }
  }

  lemma DuplicateFree(source: seq<Entry>, s: Tree, r: seq<Entry>, dropped: Entry -> bool)
    requires TreeOf(source, s) && Kept(r, source, dropped)
    ensures forall i, j :: 0 <= i < j < |r| ==> r[i].path != r[j].path
  {
    forall i, j | 0 <= i < j < |r| && r[i].path == r[j].path
      ensures false
    {
      KeptMembers(r, source, dropped);
      assert r[i] in source && r[j] in source;
      assert r[i] == r[j];
      TwiceCounted(r, i, j);
      OnceCounted(source, r[i]);
    }
  }

  lemma TwiceCounted(r: seq<Entry>, i: nat, j: nat)
    requires i < j < |r| && r[i] == r[j]
    ensures multiset(r)[r[i]] >= 2
  {
    assert r == r[..j] + [r[j]] + r[j + 1..];
    assert r[i] in r[..j];
  }

  lemma {:induction false} OnceCounted(s: seq<Entry>, e: Entry)
    requires UniquePaths(s)
    ensures multiset(s)[e] <= 1
  {
    if s != [] {
      var n := |s| - 1;
      assert s == s[..n] + [s[n]];
      OnceCounted(s[..n], e);
      assert s[n] !in s[..n];
    }
  }

  lemma DeltaLists(source: seq<Entry>, destination: seq<Entry>, sm: seq<string>, dm: seq<string>, s: Tree, t: Tree,
        d: Delta)
    requires TreeOf(source, s) && TreeOf(destination, t) && IsDelta(source, destination, sm, dm, d)
    ensures Lists(d, s, t)
  {
    hide Kept, Sorted, TreeOf, SameKindAt;
    KeptMembers(d.adds, source, e => e in destination);
    KeptMembers(d.removes, destination, e => SameKindAt(source, e));
    DuplicateFree(source, s, d.adds, e => e in destination);
    forall e
      ensures e in source <==> e.path in s && s[e.path] == e.hash
      ensures e in destination <==> e.path in t && t[e.path] == e.hash
      ensures SameKindAt(source, e) <==> e.path in s && (s[e.path] == "") == (e.hash == "")
    {
      KindInTree(source, s, e);
      MembersInTree(source, s, e);
      MembersInTree(destination, t, e);
    }
  }

  lemma MembersInTree(source: seq<Entry>, s: Tree, e: Entry)
    requires TreeOf(source, s)
    ensures e in source <==> e.path in s && s[e.path] == e.hash
  {
  }

  /** After the removes: the paths both have with the same kind. */
  lemma AfterRemoves(d: Delta, s: Tree, t: Tree)
    requires Lists(d, s, t)
    ensures var r := RemoveUpTo(t, d.removes, |d.removes|);
      && (forall p :: p in r <==> p in t && p in s && (s[p] == "") == (t[p] == ""))
      && (forall p :: p in r ==> r[p] == t[p])
  {
    hide Sorted;
    RemovedPaths(t, d.removes, |d.removes|);
    forall p | p in t
      ensures (p in s && (s[p] == "") == (t[p] == "")) <==> forall j :: 0 <= j < |d.removes| ==> d.removes[j].path != p
    {
      if !(p in s && (s[p] == "") == (t[p] == "")) {
        assert Entry(p, t[p]) in d.removes;
      } else {
        assert forall j :: 0 <= j < |d.removes| ==> d.removes[j] in d.removes;
      }
    }
  }

  /** Applied to the destination, the delta gives exactly the source. */
  lemma DeltaTransforms(d: Delta, s: Tree, t: Tree)
    requires Lists(d, s, t)
    ensures AddUpTo(RemoveUpTo(t, d.removes, |d.removes|), d.adds, |d.adds|) == s
  {
    hide Sorted;
    var r := RemoveUpTo(t, d.removes, |d.removes|);
    AfterRemoves(d, s, t);
    AddedPaths(r, d.adds, |d.adds|);
    var final := AddUpTo(r, d.adds, |d.adds|);
    assert forall j :: 0 <= j < |d.adds| ==> d.adds[j] in d.adds;
    forall p
      ensures p in final <==> p in s
      ensures p in s ==> final[p] == s[p]
    {
      if p in s && !(p in t && t[p] == s[p]) {
        assert Entry(p, s[p]) in d.adds;
      }
    }
  }

  // Every intermediate state is a tree.

  lemma LaterRemove(removes: seq<Entry>, k: nat, child: Path, parent: Path)
    requires Sorted(removes, false) && k <= |removes| && parent < child
    requires exists j :: k <= j < |removes| && removes[j].path == child
    ensures forall j :: 0 <= j < k ==> removes[j].path != parent
  {
    hide Less;
    PrefixLess(parent, child);
  }

  /** Removing from the last path to the first never orphans anything. */
  lemma RemovesKeepTree(d: Delta, s: Tree, t: Tree, k: nat)
    requires Lists(d, s, t) && WellFormed(s) && WellFormed(t) && k <= |d.removes|
    ensures WellFormed(RemoveUpTo(t, d.removes, k))
  {
    hide Sorted;
    var r := RemoveUpTo(t, d.removes, k);
    RemovedPaths(t, d.removes, k);
    forall p, i | p in r && 0 <= i < |p| && p[i] == '/'
      ensures p[..i] in r && r[p[..i]] == ""
    {
      var q := p[..i];
      assert q in t && t[q] == "";
      if Entry(p, t[p]) in d.removes {
        var j :| 0 <= j < |d.removes| && d.removes[j] == Entry(p, t[p]);
        assert d.removes[j].path == p;
        LaterRemove(d.removes, k, p, q);
      } else {
        assert q in s && s[q] == "";
        assert forall j :: 0 <= j < k ==> d.removes[j] in d.removes;
      }
    }
  }

  lemma EarlierAdd(adds: seq<Entry>, k: nat, child: Path, parent: Path)
    requires Sorted(adds, true) && k <= |adds| && parent < child
    requires exists j :: 0 <= j < k && adds[j].path == child
    requires exists j :: 0 <= j < |adds| && adds[j].path == parent
    ensures exists j :: 0 <= j < k && adds[j].path == parent
  {
    hide Less;
    PrefixLess(parent, child);
    var i :| 0 <= i < |adds| && adds[i].path == parent;
    var j :| 0 <= j < k && adds[j].path == child;
    LessIrreflexive(child);
  }

  /** Adding from the first path to the last never puts anything before its parent. */
  lemma AddsKeepTree(d: Delta, s: Tree, t: Tree, k: nat)
    requires Lists(d, s, t) && WellFormed(s) && WellFormed(t) && k <= |d.adds|
    ensures WellFormed(AddUpTo(RemoveUpTo(t, d.removes, |d.removes|), d.adds, k))
  {
    hide Sorted;
    var base := RemoveUpTo(t, d.removes, |d.removes|);
    var r := AddUpTo(base, d.adds, k);
    AfterRemoves(d, s, t);
    AddedPaths(base, d.adds, k);
    assert forall j :: 0 <= j < |d.adds| ==> d.adds[j] in d.adds;
    forall p, i | p in r && 0 <= i < |p| && p[i] == '/'
      ensures p[..i] in r && r[p[..i]] == ""
    {
      var q := p[..i];
      assert p in s;
      assert q in s && s[q] == "";
      if p in base {
        assert q in t && t[q] == "";
        assert q in base;
        AddedDirectory(d, s, t, k, q);
      } else if q in t && t[q] == "" {
        assert q in base;
        AddedDirectory(d, s, t, k, q);
      } else {
        assert Entry(q, "") in d.adds;
        EarlierAdd(d.adds, k, p, q);
      }
    }
  }

  /** A directory both have is not touched by the adds. */
  lemma AddedDirectory(d: Delta, s: Tree, t: Tree, k: nat, q: Path)
    requires Lists(d, s, t) && k <= |d.adds| && q in s && q in t && s[q] == "" && t[q] == ""
    ensures forall j :: 0 <= j < k ==> d.adds[j].path != q
  {
    hide Sorted;
    assert forall j :: 0 <= j < |d.adds| ==> d.adds[j] in d.adds;
  }

  /** The delta is empty exactly when the two indexes agree. */
  lemma EmptyExactly(source: seq<Entry>, destination: seq<Entry>, sm: seq<string>, dm: seq<string>, s: Tree,
        t: Tree, d: Delta)
    requires TreeOf(source, s) && TreeOf(destination, t) && IsDelta(source, destination, sm, dm, d)
    ensures d.IsEmpty() <==> s == t && (forall id :: id in sm <==> id in dm)
  {
    hide Kept, Sorted, TreeOf, SameKindAt;
    DeltaLists(source, destination, sm, dm, s, t, d);
    if d.adds == [] && d.removes == [] {
      DeltaTransforms(d, s, t);
      assert RemoveUpTo(t, d.removes, 0) == t && AddUpTo(t, d.adds, 0) == t;
    }
    if s == t {
      HasMember(d.adds);
      HasMember(d.removes);
    }
    NoneLeft(d.metaAdds, sm, dm);
    NoneLeft(d.metaRemoves, dm, sm);
  }

  lemma NoneLeft(ids: seq<string>, a: seq<string>, b: seq<string>)
    requires forall id :: id in ids <==> id in a && id !in b
    ensures ids == [] <==> forall id :: id in a ==> id in b
  {
    HasMember(ids);
  }

  lemma HasMember<T>(s: seq<T>)
    ensures s == [] || s[0] in s
  {
  }

  function Ids(ids: seq<string>): set<string> {
    set id | id in ids
  }

  /** The metadata ids: the two lists are the two differences, each id once, and removing and
      then adding turns the destination's ids into the source's. */
  lemma MetaTransforms(sm: seq<string>, dm: seq<string>, source: seq<Entry>, destination: seq<Entry>, d: Delta)
    requires IsDelta(source, destination, sm, dm, d)
    ensures Ids(d.metaAdds) == Ids(sm) - Ids(dm) && |d.metaAdds| == |Ids(sm) - Ids(dm)|
    ensures Ids(d.metaRemoves) == Ids(dm) - Ids(sm) && |d.metaRemoves| == |Ids(dm) - Ids(sm)|
    ensures Ids(dm) - Ids(d.metaRemoves) + Ids(d.metaAdds) == Ids(sm)
  {
    hide Kept, Sorted, Distinct;
    DistinctCount(d.metaAdds);
    DistinctCount(d.metaRemoves);
    assert Ids(d.metaAdds) == Ids(sm) - Ids(dm);
    assert Ids(d.metaRemoves) == Ids(dm) - Ids(sm);
  }

  lemma {:induction false} DistinctCount(ids: seq<string>)
    requires Distinct(ids)
    ensures |Ids(ids)| == |ids|
  {
    if ids != [] {
      var n := |ids| - 1;
      DistinctCount(ids[..n]);
      assert Ids(ids) == Ids(ids[..n]) + {ids[n]};
    }
  }

  /** Whatever getDelta returns for two stamps of indexes s and t: t with the removes and then
      the adds applied is s, through trees all the way, and likewise for the metadata ids; and
      there is nothing to apply exactly when the indexes and the ids agree. */
  lemma DeltaApplies(source: Stamp, destination: Stamp, s: Tree, t: Tree, d: Delta)
    requires Parses(source) && Parses(destination)
    requires TreeOf(EntriesOf(source), s) && TreeOf(EntriesOf(destination), t)
    requires IsDelta(EntriesOf(source), EntriesOf(destination), source.meta.value, destination.meta.value, d)
    ensures var base := RemoveUpTo(t, d.removes, |d.removes|);
      && AddUpTo(base, d.adds, |d.adds|) == s
      && (WellFormed(s) && WellFormed(t) ==>
            && (forall k: nat :: k <= |d.removes| ==> WellFormed(RemoveUpTo(t, d.removes, k)))
            && (forall k: nat :: k <= |d.adds| ==> WellFormed(AddUpTo(base, d.adds, k))))
    ensures Ids(destination.meta.value) - Ids(d.metaRemoves) + Ids(d.metaAdds) == Ids(source.meta.value)
    ensures d.IsEmpty() <==> s == t && Ids(source.meta.value) == Ids(destination.meta.value)
  {
    var from, to, sm, dm := EntriesOf(source), EntriesOf(destination), source.meta.value, destination.meta.value;
    hide *;
    DeltaLists(from, to, sm, dm, s, t, d);
    DeltaTransforms(d, s, t);
    if WellFormed(s) && WellFormed(t) {
      forall k: nat | k <= |d.removes|
        ensures WellFormed(RemoveUpTo(t, d.removes, k))
      {
        RemovesKeepTree(d, s, t, k);
      }
      forall k: nat | k <= |d.adds|
        ensures WellFormed(AddUpTo(RemoveUpTo(t, d.removes, |d.removes|), d.adds, k))
      {
        AddsKeepTree(d, s, t, k);
      }
    }
    MetaTransforms(sm, dm, from, to, d);
    EmptyExactly(from, to, sm, dm, s, t, d);
    SameIds(sm, dm);
  }

  lemma SameIds(a: seq<string>, b: seq<string>)
    ensures Ids(a) == Ids(b) <==> forall id :: id in a <==> id in b
  {
    if Ids(a) == Ids(b) {
      forall id
        ensures id in a <==> id in b
      {
        assert id in Ids(a) <==> id in Ids(b);
      }
    }
  }
}
