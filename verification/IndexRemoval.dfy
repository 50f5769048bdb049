/** Removing paths from the index: each path is used as a glob query, and so is every match. */
module IndexRemoval {

  import opened GlobQuery
  import opened Text
  import opened Options

  type Path = string
  type Id = string

  datatype Row = Row(hash: string, isFolder: bool, depth: nat)
  datatype Meta = Meta(path: Path, key: string, data: string)

  type Rows = map<Path, Row>
  type Metas = map<Id, Meta>

  /** An empty query means every row. */
  predicate Matches(query: string, p: Path) {
    query == "" || Glob(query, p)
  }

  /** What getMatchingEntries looks for: the matches, or what lies below them. */
  ghost predicate Queried(query: string, isFolder: bool, p: Path) {
    if isFolder then Below(if query == "" then "*" else query, p) else Matches(query, p)
  }

  /** What deleteFromIndex deletes: the matches of the query, or what lies below them. */
  ghost predicate Hit(query: string, isFolder: bool, p: Path) {
    if isFolder then Below(query, p) else Glob(query, p)
  }

  ghost function Without(rows: Rows, query: string, isFolder: bool): Rows {
    map p | p in rows && !Hit(query, isFolder, p) :: rows[p]
  }

  ghost function MetaWithout(meta: Metas, query: string, isFolder: bool): Metas {
    map id | id in meta && !Hit(query, isFolder, meta[id].path) :: meta[id]
  }

  /** Row e, matched by the request, takes p with it. */
  ghost predicate Takes(rows: Rows, e: Path, p: Path) {
    e in rows && (Hit(e, false, p) || (rows[e].isFolder && Hit(e, true, p)))
  }

  /** removeFromIndex on one path removes p. */
  ghost predicate Removed(rows: Rows, query: string, p: Path) {
    exists e :: e in rows && Matches(query, e) && Takes(rows, e, p)
  }

  ghost function RowsLeft(rows: Rows, query: string): Rows {
    map p | p in rows && !Removed(rows, query, p) :: rows[p]
  }

  ghost function MetasLeft(rows: Rows, meta: Metas, query: string): Metas {
    map id | id in meta && !Removed(rows, query, meta[id].path) :: meta[id]
  }

  lemma PatternIsHit(query: string, isFolder: bool, p: Path)
    ensures Like(if isFolder then Sanitized(query) + "//%" else Sanitized(query), p, true) <==> Hit(query, isFolder, p)
  {
    TranslationExact(query, p);
    FolderExact(query, p);
  }

  /** p is one of those taken by the rows in `done`. */
  ghost predicate TakenBy(rows: Rows, done: set<Path>, p: Path) {
    exists e :: e in done && Takes(rows, e, p)
  }

  ghost function RowsAfter(rows: Rows, done: set<Path>): Rows {
    map p | p in rows && !TakenBy(rows, done, p) :: rows[p]
  }

  ghost function MetasAfter(rows: Rows, meta: Metas, done: set<Path>): Metas {
    map id | id in meta && !TakenBy(rows, done, meta[id].path) :: meta[id]
  }

  /** Using one more listed row as a query, and as a folder query when it is a folder. */
  lemma TakeOne(rows: Rows, meta: Metas, done: set<Path>, e: Path)
    requires e in rows
    ensures var r, m := RowsAfter(rows, done), MetasAfter(rows, meta, done);
      && RowsAfter(rows, done + {e}) == (if rows[e].isFolder then Without(Without(r, e, false), e, true)
        else Without(r, e, false))
      && MetasAfter(rows, meta, done + {e})
         == (if rows[e].isFolder then MetaWithout(MetaWithout(m, e, false), e, true) else MetaWithout(m, e, false))
  {
    hide Hit;
    assert forall p :: TakenBy(rows, done + {e}, p) <==> TakenBy(rows, done, p) || Takes(rows, e, p);
  }

  lemma TakeAll(rows: Rows, meta: Metas, query: string, matches: set<Path>)
    requires matches == set p | p in rows && Matches(query, p)
    ensures RowsAfter(rows, matches) == RowsLeft(rows, query)
    ensures MetasAfter(rows, meta, matches) == MetasLeft(rows, meta, query)
    ensures matches != {} <==> exists p :: p in rows && Matches(query, p)
  {
    hide Takes, Matches;
    assert forall p :: TakenBy(rows, matches, p) <==> Removed(rows, query, p);
    if matches != {} {
      var p :| p in matches;
      assert p in rows && Matches(query, p);
    }
    assert forall p :: p in rows && Matches(query, p) ==> p in matches;
  }

  lemma TakeNone(rows: Rows, meta: Metas)
    ensures RowsAfter(rows, {}) == rows && MetasAfter(rows, meta, {}) == meta
  {
  }

  lemma HitsItself(rows: Rows, e: Path)
    requires e in rows
    ensures |set p | p in rows && Hit(e, false, p)| > 0
  {
    hide Glob;
    SelfMatch(e);
    var hits := set p | p in rows && Hit(e, false, p);
    assert e in hits;
    assert hits == {e} + (hits - {e});
  }

  class Index {
    var rows: Rows
    var meta: Metas

    constructor (rows: Rows, meta: Metas)
      ensures this.rows == rows && this.meta == meta
    {
      this.rows, this.meta := rows, meta;
    }

    /** getMatchingEntries, as a set: a depth of 0 means every depth, a negative one throws. */
    method GetMatchingEntries(query: string, maxRecursionDepth: int, isFolder: bool) returns (r: Option<set<Path>>)
      ensures r.None? <==> maxRecursionDepth < 0
      ensures r.Some? ==> r.value == set p | p in rows && Queried(query, isFolder, p)
                                             && (maxRecursionDepth > 0 ==> rows[p].depth < maxRecursionDepth)
    {
      hide Queried, Like, Sanitized;
      if maxRecursionDepth < 0 {
        return None;
      }
      var sanitized := SanitizeQueryParam(query);
      if |sanitized| == 0 {
        sanitized := "%";
      }
      if isFolder {
        sanitized := sanitized + "//%";
      }
      forall p
        ensures Like(sanitized, p, true) <==> Queried(query, isFolder, p)
      {
        PatternQueried(query, isFolder, p);
      }
      r := Some(set p | p in rows && Like(sanitized, p, true)
        && (maxRecursionDepth > 0 ==> rows[p].depth <= maxRecursionDepth - 1));
    }

    /** The listing with the default depth and no folder suffix. */
    method ListMatches(query: string) returns (matches: set<Path>)
      ensures matches == set p | p in rows && Matches(query, p)
    {
      hide Queried, Matches;
      var listing := GetMatchingEntries(query, 0, false);
      matches := listing.value;
      PlainQueried(rows, query);
    }

    method DeleteFromIndex(query: string, isFolder: bool) returns (count: nat)
      modifies this
      ensures rows == Without(old(rows), query, isFolder)
      ensures meta == MetaWithout(old(meta), query, isFolder)
      ensures count == |set p | p in old(rows) && Hit(query, isFolder, p)|
    {
      hide Hit, Like, Sanitized;
      var str := SanitizeQueryParam(query);
      if isFolder {
        str := str + "//%";
      }
      forall p
        ensures Like(str, p, true) <==> Hit(query, isFolder, p)
      {
        PatternIsHit(query, isFolder, p);
      }
      meta := map id | id in meta && !Like(str, meta[id].path, true) :: meta[id];
      var selected := set p | p in rows && Like(str, p, true);
      assert selected == set p | p in rows && Hit(query, isFolder, p);
      count := |selected|;
      if count > 0 {
        rows := map p | p in rows && !Like(str, p, true) :: rows[p];
      } else {
        assert selected == {};
        assert forall p :: p in rows && Hit(query, isFolder, p) ==> p in selected;
      }
    }

    /** removeFromIndex for one path: all its matches are listed first, then each match is used
        as a query, twice when it is a folder. False when nothing matches. */
    method RemovePath(query: string) returns (found: bool)
      modifies this
      ensures found <==> exists p :: p in old(rows) && Matches(query, p)
      ensures rows == RowsLeft(old(rows), query)
      ensures meta == MetasLeft(old(rows), old(meta), query)
    {
      hide *;
      ghost var rows0, meta0 := rows, meta;
      var listed := rows;
      var matches := ListMatches(query);
      var todo, tot := matches, 0;
      ghost var done: set<Path> := {};
      TakeNone(rows, meta);
      while todo != {}
        invariant todo + done == matches && todo !! done
        invariant rows == RowsAfter(rows0, done) && meta == MetasAfter(rows0, meta0, done)
        invariant tot > 0 <==> done != {}
        decreases todo
      {
        var e :| e in todo;
        assert e in matches;
        TakeOne(rows0, meta0, done, e);
        if done == {} {
          HitsItself(rows, e);
        }
        var cnt := DeleteFromIndex(e, false);
        if listed[e].isFolder {
          var more := DeleteFromIndex(e, true);
          cnt := cnt + more;
        }
        todo, done, tot := todo - {e}, done + {e}, tot + cnt;
      }
      assert done == matches;
      TakeAll(rows0, meta0, query, matches);
      found := tot > 0;
    }
  }

  lemma PlainQueried(rows: Rows, query: string)
    ensures (set p | p in rows && Queried(query, false, p)) == set p | p in rows && Matches(query, p)
  {
  }

  lemma StarIsPercent()
    ensures Sanitized("*") == "%"
  {
    hide Sanitized;
    SanitizedEmpty();
    SanitizedChar('*', "");
    assert ['*'] + "" == "*";
  }

  lemma PatternQueried(query: string, isFolder: bool, p: Path)
    ensures var base := if Sanitized(query) == "" then "%" else Sanitized(query);
      Like(if isFolder then base + "//%" else base, p, true) <==> Queried(query, isFolder, p)
  {
    hide Sanitized, Like, Glob, Below;
    SanitizedNonEmpty(query);
    StarIsPercent();
    TranslationExact(query, p);
    FolderExact(if query == "" then "*" else query, p);
    RunMatchesAll(p);
  }

  lemma SanitizedNonEmpty(q: string)
    ensures Sanitized(q) == "" <==> q == ""
  {
    hide Sanitized;
    SanitizedEmpty();
    if q != "" {
      assert q == [q[0]] + q[1..];
      SanitizedChar(q[0], q[1..]);
    }
  }

  lemma TakesItself(rows: Rows, e: Path)
    requires e in rows
    ensures Takes(rows, e, e)
  {
    hide Glob;
    SelfMatch(e);
  }

  // ----- what a removal means -----

  predicate Plain(q: string) {
    q != "" && '*' !in q && '_' !in q
  }

  /** No other row is a case variant of q. */
  ghost predicate NoVariant(rows: Rows, q: Path) {
    forall p :: p in rows && FoldEqual(q, p) ==> p == q
  }

  /** q itself or, when q is a folder, a path below it up to case. */
  ghost predicate InSubtree(rows: Rows, q: Path, p: Path)
    requires q in rows
  {
    p == q || (rows[q].isFolder && exists i :: 0 <= i < |p| && p[i] == '/' && FoldEqual(q, p[..i]))
  }

  lemma PlainTakes(rows: Rows, q: Path, p: Path)
    requires q in rows && Plain(q) && NoVariant(rows, q) && p in rows
    ensures Takes(rows, q, p) <==> InSubtree(rows, q, p)
  {
    hide Glob, FoldEqual;
    PlainMatch(q, p);
    PlainMatch(q, q);
    SelfMatch(q);
    forall i | 0 <= i < |p| && p[i] == '/'
      ensures Glob(q, p[..i]) <==> FoldEqual(q, p[..i])
    {
      PlainMatch(q, p[..i]);
    }
  }

  /** Removing a path without '*' and '_', of which the index has no case variant, removes
      exactly that row and, for a folder, what lies below it. */
  lemma PlainRemoval(rows: Rows, q: Path, p: Path)
    requires q in rows && Plain(q) && NoVariant(rows, q) && p in rows
    ensures Removed(rows, q, p) <==> InSubtree(rows, q, p)
  {
    hide Glob, FoldEqual, Takes, InSubtree;
    forall e | e in rows && Matches(q, e)
      ensures e == q
    {
      PlainMatch(q, e);
    }
    SelfMatch(q);
    PlainTakes(rows, q, p);
  }

  /** Removing q takes exactly its own subtree, in every index that has no case variant of q. */
  ghost predicate TakesOnlySubtree(q: Path) {
    forall rows: Rows, p: Path | q in rows && NoVariant(rows, q) && p in rows ::
      Removed(rows, q, p) <==> InSubtree(rows, q, p)
  }

  /** A wildcard character lets a second row be removed with the first. */
  lemma WildcardTakesOther(q: Path, i: nat)
    requires i < |q| && (q[i] == '*' || q[i] == '_')
    ensures !TakesOnlySubtree(q)
  {
    hide Glob;
    var row := Row("", false, 0);
    var p := q[i := 'x'];
    var rows := map[q := row, p := row];
    assert q[i] != p[i] && !Same(q[i], p[i]);
    FitsMatches(q, p);
    SelfMatch(p);
    TakesItself(rows, p);
    assert Matches(q, p);
    assert Removed(rows, q, p) && !InSubtree(rows, q, p);
    assert NoVariant(rows, q);
  }

  /** That is so exactly when the path has no '*' and no '_'. */
  lemma RemovalExactly(q: Path)
    requires q != ""
    ensures TakesOnlySubtree(q) <==> Plain(q)
  {
    hide Removed, InSubtree, NoVariant, TakesOnlySubtree;
    if Plain(q) {
      PlainTakesOnly(q);
    } else {
      var i :| 0 <= i < |q| && (q[i] == '*' || q[i] == '_');
      WildcardTakesOther(q, i);
    }
  }

  lemma PlainTakesOnly(q: Path)
    requires Plain(q)
    ensures TakesOnlySubtree(q)
  {
    hide Removed, InSubtree, NoVariant;
    forall rows: Rows, p: Path | q in rows && NoVariant(rows, q) && p in rows
      ensures Removed(rows, q, p) <==> InSubtree(rows, q, p)
    {
      PlainRemoval(rows, q, p);
    }
  }

  /** Removing any listed path removes that path. */
  lemma RemovesItself(rows: Rows, q: Path)
    requires q in rows
    ensures Removed(rows, q, q) && exists p :: p in rows && Matches(q, p)
  {
    hide Glob;
    SelfMatch(q);
    TakesItself(rows, q);
  }

  /** An underscore in a file name takes a neighbour along, with everything below it when the
      neighbour is a folder. */
  lemma UnderscoreTakesNeighbour(file: Row, folder: Row)
    requires !file.isFolder && folder.isFolder
    ensures var rows := map["a_b" := file, "axb" := folder, "axb/c" := file];
      RowsLeft(rows, "a_b") == map[]
  {
    var rows := map["a_b" := file, "axb" := folder, "axb/c" := file];
    FitsMatches("a_b", "a_b");
    FitsMatches("a_b", "axb");
    FitsMatches("axb", "axb");
    assert "axb/c"[..3] == "axb";
    assert Below("axb", "axb/c");
    assert Takes(rows, "a_b", "a_b") && Takes(rows, "axb", "axb") && Takes(rows, "axb", "axb/c");
  }

  // ----- cleanupBuild, phase one -----

  /** The rows whose file is gone: never folders. */
  ghost predicate MissingList(rows: Rows, gone: set<Path>, missing: seq<Path>) {
    && (forall p :: p in missing <==> p in rows && !rows[p].isFolder && p in gone)
    && forall i, j :: 0 <= i < j < |missing| ==> missing[i] != missing[j]
  }

  lemma LeftStep(rows: Rows, q: Path)
    ensures RowsLeft(rows, q).Keys <= rows.Keys
    ensures forall p :: p in RowsLeft(rows, q) ==> RowsLeft(rows, q)[p] == rows[p]
    ensures q !in RowsLeft(rows, q)
  {
    hide Matches, Takes;
    if q in rows {
      RemovesItself(rows, q);
    }
  }

  lemma PlainLeft(rows: Rows, q: Path)
    requires q in rows && !rows[q].isFolder && Plain(q) && NoVariant(rows, q)
    ensures RowsLeft(rows, q) == rows - {q}
  {
    hide Removed;
    forall p | p in rows
      ensures Removed(rows, q, p) <==> p == q
    {
      PlainRemoval(rows, q, p);
    }
  }

  /** Every missing path is removed one at a time and a failure is only logged. No row whose
      file is gone survives; when the missing paths have no wildcard and no case variant,
      nothing else is removed and each is reported. */
  method RemoveMissing(index: Index, gone: set<Path>, missing: seq<Path>) returns (removedEntries: seq<Path>)
    requires MissingList(index.rows, gone, missing)
    modifies index
    ensures forall p :: p in index.rows ==>
      p in old(index.rows) && index.rows[p] == old(index.rows)[p] && (p in gone ==> index.rows[p].isFolder)
    ensures (forall p :: p in missing ==> Plain(p) && NoVariant(old(index.rows), p)) ==>
      removedEntries == missing && index.rows == old(index.rows) - Elements(missing)
  {
    hide *;
    ghost var rows0 := index.rows;
    ghost var careful := forall p :: p in missing ==> Plain(p) && NoVariant(rows0, p);
    removedEntries := [];
    for i := 0 to |missing|
      invariant forall p :: p in index.rows ==> p in rows0 && index.rows[p] == rows0[p] && p !in missing[..i]
      invariant careful ==> removedEntries == missing[..i] && index.rows == rows0 - Elements(missing[..i])
    {
      var rel := missing[i];
      assert missing[..i + 1] == missing[..i] + [rel];
      ghost var before := index.rows;
      LeftStep(before, rel);
      if careful {
        CarefulStep(rows0, gone, missing, i, before);
      }
      var found := index.RemovePath(rel);
      if found {
        removedEntries := removedEntries + [rel];
      }
    }
    assert missing[..|missing|] == missing;
    AllMissingGone(rows0, gone, missing, index.rows);
  }

  lemma AllMissingGone(rows0: Rows, gone: set<Path>, missing: seq<Path>, rows: Rows)
    requires MissingList(rows0, gone, missing)
    requires forall p :: p in rows ==> p in rows0 && rows[p] == rows0[p] && p !in missing
    ensures forall p :: p in rows && p in gone ==> rows[p].isFolder
  {
  }

  lemma CarefulStep(rows0: Rows, gone: set<Path>, missing: seq<Path>, i: nat, before: Rows)
    requires MissingList(rows0, gone, missing) && i < |missing|
    requires before == rows0 - Elements(missing[..i])
    requires forall p :: p in missing ==> Plain(p) && NoVariant(rows0, p)
    ensures RowsLeft(before, missing[i]) == rows0 - Elements(missing[..i + 1])
    ensures exists p :: p in before && Matches(missing[i], p)
  {
    hide RowsLeft, Matches, Plain, FoldEqual;
    var rel := missing[i];
    assert missing[..i + 1] == missing[..i] + [rel];
    assert rel in before;
    PlainLeft(before, rel);
    RemovesItself(before, rel);
  }
}
