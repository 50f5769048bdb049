/** moveEntry: a file or a whole folder gets a new path in the index, in one transaction. */
module EntryMove {

  import opened GlobQuery
  import opened Text
  import opened Options

  type Path = string
  type Id = string

  const DIRECTORY := 1

  datatype Row = Row(hash: string, kind: int, depth: nat)
  datatype Meta = Meta(path: Path, key: string, data: string)

  /** The entries table, keyed by path, and the metadata that refers to it by path. */
  datatype Store = Store(rows: map<Path, Row>, meta: map<Id, Meta>)

  // ----- paths -----

  /** The number of '/'-separated components. */
  function Components(p: Path): nat {
    if p == "" then 0
    else
      var n := |p| - 1;
      Components(p[..n]) + if p[n] != '/' && (n == 0 || p[n - 1] == '/') then 1 else 0
  }

  function Depth(p: Path): nat {
    if Components(p) == 0 then 0 else Components(p) - 1
  }

  /** A component of the path starts at i. */
  predicate StartsAt(p: Path, i: nat)
    requires i < |p|
  {
    p[i] != '/' && (i == 0 || p[i - 1] == '/')
  }

  function Starts(p: Path): set<nat> {
    set i: nat | i < |p| && StartsAt(p, i)
  }

  /** No separator at either end and no two in a row, as in every path the index holds. */
  predicate Tidy(p: Path) {
    && p != "" && p[0] != '/' && p[|p| - 1] != '/'
    && forall i :: 0 < i < |p| ==> !(p[i - 1] == '/' && p[i] == '/')
  }

  lemma {:induction false} ComponentsAreStarts(p: Path)
    ensures Components(p) == |Starts(p)|
  {
    if p == "" {
      assert Starts(p) == {};
    } else {
      var n := |p| - 1;
      ComponentsAreStarts(p[..n]);
      forall i: nat | i < n
        ensures StartsAt(p, i) == StartsAt(p[..n], i)
      {
      }
      assert Starts(p) == Starts(p[..n]) + if StartsAt(p, n) then {n as nat} else {};
    }
  }

  lemma {:induction false} StartsBySeparators(p: Path)
    requires p != "" && p[0] != '/' && forall i :: 0 < i < |p| ==> !(p[i - 1] == '/' && p[i] == '/')
    ensures Components(p) == multiset(p)['/'] + if p[|p| - 1] == '/' then 0 else 1
  {
    var n := |p| - 1;
    assert p == p[..n] + [p[n]];
    if n == 0 {
      assert p[..n] == "";
    } else {
      StartsBySeparators(p[..n]);
    }
  }

  /** A depth is right when it is one less than the number of components; in a tidy path that is
      the number of separators. */
  predicate RightDepth(p: Path, depth: nat) {
    && depth == (if Starts(p) == {} then 0 else |Starts(p)| - 1)
    && (Tidy(p) ==> depth == multiset(p)['/'])
  }

  lemma DepthIsRight(p: Path)
    ensures RightDepth(p, Depth(p))
  {
    ComponentsAreStarts(p);
    if Tidy(p) {
      StartsBySeparators(p);
    }
  }

  predicate EndsInSeparator(p: Path)
    requires p != ""
  {
    p[|p| - 1] == '/' || p[|p| - 1] == '\\'
  }

  /** Some component is "." or "..". */
  predicate HasDotNotation(p: Path) {
    exists i, j :: 0 <= i <= j <= |p| && (i == 0 || p[i - 1] == '/') && (j == |p| || p[j] == '/')
      && (p[i..j] == "." || p[i..j] == "..")
  }

  function LastIndex(s: string, c: char): (r: Option<nat>)
    ensures r.Some? ==> r.value < |s| && s[r.value] == c && c !in s[r.value + 1..]
    ensures r.None? ==> c !in s
  {
    if s == "" then None else if s[|s| - 1] == c then Some(|s| - 1 as nat) else LastIndex(s[..|s| - 1], c)
  }

  function FileName(p: Path): string {
    match LastIndex(p, '/')
    case None => p
    case Some(i) => p[i + 1..]
  }

  /** fs::path::extension: from the last dot of the file name, unless that is its first character. */
  function Extension(p: Path): string {
    match LastIndex(FileName(p), '.')
    case None => ""
    case Some(i) => if i == 0 then "" else FileName(p)[i..]
  }

  /** The last dot of the file name and what follows it, unless that dot opens the name; or
      nothing when there is no such dot. */
  ghost predicate IsExtension(p: Path, e: string) {
    || (e == "" && forall i :: 0 <= i < |p| && p[i] == '.' && '/' !in p[i..] ==> i == 0 || p[i - 1] == '/')
    || exists i :: LastDot(p, i) && e == p[i..]
  }

  predicate LastDot(p: Path, i: int) {
    0 < i < |p| && p[i] == '.' && p[i - 1] != '/' && '/' !in p[i..] && '.' !in p[i + 1..]
  }

  lemma FileNameIs(p: Path) returns (k: nat)
    ensures k <= |p| && FileName(p) == p[k..] && '/' !in p[k..] && (k == 0 || p[k - 1] == '/')
  {
    match LastIndex(p, '/')
    case None => k := 0;
    case Some(i) => k := i + 1;
  }

  lemma ExtensionExactly(p: Path)
    ensures IsExtension(p, Extension(p))
    ensures forall e :: IsExtension(p, e) ==> e == Extension(p)
  {
    hide LastIndex, IsExtension, LastDot;
    var k := FileNameIs(p);
    hide FileName;
    SlashesBefore(p, k);
    match LastIndex(p[k..], '.')
    case None => NoExtension(p, k);
    case Some(d) => ExtensionAt(p, k, d);
  }

  lemma SlashesBefore(p: Path, k: nat)
    requires k <= |p| && '/' !in p[k..] && (k == 0 || p[k - 1] == '/')
    ensures forall i :: 0 <= i < |p| ==> ('/' in p[i..] <==> i < k)
  {
    forall i | 0 <= i < |p|
      ensures '/' in p[i..] <==> i < k
    {
      if i < k {
        assert p[i..][k - 1 - i] == '/';
      } else {
        assert p[i..] == p[k..][i - k..];
      }
    }
  }

  lemma NoExtension(p: Path, k: nat)
    requires k <= |p| && '.' !in p[k..]
    requires forall i :: 0 <= i < |p| ==> ('/' in p[i..] <==> i < k)
    ensures forall e :: IsExtension(p, e) <==> e == ""
  {
    assert forall i :: k <= i < |p| ==> p[i] == p[k..][i - k];
  }

  lemma ExtensionAt(p: Path, k: nat, d: nat)
    requires k + d < |p| && p[k + d] == '.' && '.' !in p[k..][d + 1..] && (k == 0 || p[k - 1] == '/')
    requires forall i :: 0 <= i < |p| ==> ('/' in p[i..] <==> i < k)
    ensures forall e :: IsExtension(p, e) <==> e == if d == 0 then "" else p[k..][d..]
  {
    LastDotIs(p, k, d);
    hide LastDot;
    if d > 0 {
      assert p[k + d] == '.' && '/' !in p[k + d..] && p[k + d - 1] != '/' by { NotSlash(p, k, d); }
    }
  }

  lemma NotSlash(p: Path, k: nat, d: nat)
    requires 0 < d && k + d < |p|
    requires forall i :: 0 <= i < |p| ==> ('/' in p[i..] <==> i < k)
    ensures p[k + d - 1] != '/'
  {
    assert p[k + d - 1..][0] == p[k + d - 1];
  }

  /** Where the dots of the file name are: k + d is the last of them. */
  lemma LastDotIs(p: Path, k: nat, d: nat)
    requires k + d < |p| && p[k + d] == '.' && '.' !in p[k..][d + 1..] && (k == 0 || p[k - 1] == '/')
    requires forall i :: 0 <= i < |p| ==> ('/' in p[i..] <==> i < k)
    ensures forall i :: LastDot(p, i) <==> i == k + d && d > 0
    ensures d > 0 ==> p[k..][d..] == p[k + d..]
    ensures forall i :: 0 <= i < |p| && p[i] == '.' && '/' !in p[i..] ==> k <= i <= k + d
  {
    assert p[k..][d + 1..] == p[k + d + 1..];
    assert d > 0 ==> p[k + d - 1..][0] == p[k + d - 1];
    forall i | k + d < i < |p|
      ensures p[i] != '.'
    {
      assert p[i] == p[k + d + 1..][i - k - d - 1];
    }
    forall i | 0 < i < k + d && p[i] == '.'
      ensures '.' in p[i + 1..]
    {
      assert p[i + 1..][k + d - i - 1] == '.';
    }
  }

  /** p is the folder or below it. */
  predicate Under(folder: Path, p: Path) {
    p == folder || folder + "/" <= p
  }

  function NewPath(source: Path, dest: Path, p: Path): Path
    requires |source| <= |p|
  {
    dest + p[|source|..]
  }

  /** Every proper ancestor of every row has a row. */
  ghost predicate ParentClosed(rows: map<Path, Row>) {
    forall p, i :: p in rows && 0 <= i < |p| && p[i] == '/' ==> p[..i] in rows
  }

  // ----- the statements -----

  function DeleteEntry(s: Store, p: Path): Store {
    Store(s.rows - {p}, if p == "" then s.meta else map id | id in s.meta && s.meta[id].path != p :: s.meta[id])
  }

  /** The row and its metadata get the path `dest`; the row also gets its new depth. */
  function ReplacePath(s: Store, source: Path, dest: Path): Store {
    Store(if source in s.rows then (s.rows - {source})[dest := s.rows[source].(depth := Depth(dest))] else s.rows,
          map id | id in s.meta :: if s.meta[id].path == source then s.meta[id].(path := dest) else s.meta[id])
  }

  /** listFolderPaths: a LIKE without ESCAPE, or the path itself. */
  predicate Listed(source: Path, p: Path) {
    Like(source + "/%", p, false) || p == source
  }

  function MoveOne(s: Store, source: Path, dest: Path, p: Path): Store
    requires |source| <= |p|
  {
    ReplacePath(DeleteEntry(s, NewPath(source, dest, p)), p, NewPath(source, dest, p))
  }

  function MoveUpTo(s: Store, source: Path, dest: Path, order: seq<Path>, n: nat): Store
    requires n <= |order| && forall p :: p in order ==> |source| <= |p|
  {
    if n == 0 then s else MoveOne(MoveUpTo(s, source, dest, order, n - 1), source, dest, order[n - 1])
  }

  /** The arguments moveEntry throws on. */
  predicate Refused(rows: map<Path, Row>, source: Path, dest: Path)
    requires source != "" && dest != ""
  {
    || EndsInSeparator(source) || HasDotNotation(source) || EndsInSeparator(dest) || HasDotNotation(dest)
    || (source != dest && source !in rows)
    || (source != dest && dest in rows && (rows[source].kind == DIRECTORY || rows[dest].kind == DIRECTORY))
  }

  /** A path that ends in a separator, or has a component "." or "..". */
  ghost predicate BadName(p: Path)
    requires p != ""
  {
    || p[|p| - 1] in {'/', '\\'}
    || exists a, b :: Around(p, a, ".", b) || Around(p, a, "..", b)
  }

  predicate Around(p: Path, a: string, c: string, b: string) {
    p == a + c + b && (a == "" || a[|a| - 1] == '/') && (b == "" || b[0] == '/')
  }

  lemma AroundAt(p: Path, a: string, c: string, b: string)
    requires Around(p, a, c, b)
    ensures var i, j := |a|, |a| + |c|;
      && j <= |p| && (i == 0 || p[i - 1] == '/') && (j == |p| || p[j] == '/') && p[i..j] == c
  {
    assert b != "" ==> p[|a| + |c|] == b[0];
  }

  lemma AroundSlice(p: Path, i: nat, j: nat)
    requires i <= j <= |p| && (i == 0 || p[i - 1] == '/') && (j == |p| || p[j] == '/')
    ensures Around(p, p[..i], p[i..j], p[j..])
  {
    assert p == p[..i] + p[i..j] + p[j..];
  }

  lemma DotNotationExactly(p: Path)
    ensures HasDotNotation(p) <==> exists a, b :: Around(p, a, ".", b) || Around(p, a, "..", b)
  {
    hide Around;
    if HasDotNotation(p) {
      var i, j :| 0 <= i <= j <= |p| && (i == 0 || p[i - 1] == '/') && (j == |p| || p[j] == '/')
        && (p[i..j] == "." || p[i..j] == "..");
      AroundSlice(p, i, j);
    }
    if a, b :| Around(p, a, ".", b) || Around(p, a, "..", b) {
      AroundAt(p, a, if Around(p, a, ".", b) then "." else "..", b);
    }
  }

  /** What is refused: a bad name on either side; a source without a row; a destination that
      exists when it or the source is a directory. */
  lemma RefusedExactly(rows: map<Path, Row>, source: Path, dest: Path)
    requires source != "" && dest != ""
    ensures Refused(rows, source, dest) <==>
      || BadName(source) || BadName(dest)
      || (source != dest
          && (source !in rows || (dest in rows && (rows[source].kind == 1 || rows[dest].kind == 1))))
  {
    hide HasDotNotation, Around;
    DotNotationExactly(source);
    DotNotationExactly(dest);
  }

  function MoveFile(s: Store, source: Path, dest: Path, newKind: Option<int>): (r: Option<Store>)
    requires source in s.rows
  {
    var cleared := if dest in s.rows then DeleteEntry(s, dest) else s;
    var moved := ReplacePath(cleared, source, dest);
    if Extension(source) == Extension(dest) then Some(moved)
    else if newKind.None? then None
    else if newKind.value == s.rows[source].kind || dest !in moved.rows then Some(moved)
    else Some(moved.(rows := moved.rows[dest := moved.rows[dest].(kind := newKind.value)]))
  }

  class Index {
    var store: Store

    constructor (store: Store)
      ensures this.store == store
    {
      this.store := store;
    }

    /** moveEntry up to the creation of missing folders. `order` is the listing of the source
        folder in the order the database returns it, `newKind` what fingerprinting the moved
        file gives, None when it throws. False when an exception leaves the index as it was. */
    method Move(source: Path, dest: Path, order: seq<Path>, newKind: Option<int>) returns (ok: bool)
      requires source != "" && dest != ""
      requires forall p :: p in order <==> p in store.rows && Listed(source, p)
      requires forall i, j :: 0 <= i < j < |order| ==> order[i] != order[j]
      modifies this
      ensures !ok ==> store == old(store)
      ensures Refused(old(store).rows, source, dest) ==> !ok
      ensures !Refused(old(store).rows, source, dest) && source == dest ==> ok && store == old(store)
      ensures !Refused(old(store).rows, source, dest) && source != dest ==>
        if old(store).rows[source].kind == DIRECTORY then
          && (ok <==> forall p :: p in order ==> |source| <= |p|)
          && (ok ==> store == MoveUpTo(old(store), source, dest, order, |order|))
        else
          var r := MoveFile(old(store), source, dest, newKind);
          ok == r.Some? && (ok ==> store == r.value)
    {
      hide Listed, HasDotNotation, EndsInSeparator, MoveOne, ReplacePath, DeleteEntry, Extension;
      ok := false;
      if EndsInSeparator(source) || HasDotNotation(source) || EndsInSeparator(dest) || HasDotNotation(dest) {
        return;
      }
      if source == dest {
        return true;
      }
      if source !in store.rows {
        return;
      }
      var sourceKind := store.rows[source].kind;
      var destExists := dest in store.rows;
      if destExists && (sourceKind == DIRECTORY || store.rows[dest].kind == DIRECTORY) {
        return;
      }
      var before := store;
      if sourceKind != DIRECTORY {
        if destExists {
          store := DeleteEntry(store, dest);
        }
        store := ReplacePath(store, source, dest);
        if Extension(source) != Extension(dest) {
          if newKind.None? {
            store := before;
            return;
          }
          if newKind.value != sourceKind && dest in store.rows {
            store := store.(rows := store.rows[dest := store.rows[dest].(kind := newKind.value)]);
          }
        }
      } else {
        for i := 0 to |order|
          invariant forall p :: p in order[..i] ==> |source| <= |p|
          invariant store == MoveUpTo(before, source, dest, order[..i], i)
        {
          if |order[i]| < |source| {
            store := before;
            return;
          }
          MovePrefix(before, source, dest, order, i);
          store := MoveOne(store, source, dest, order[i]);
        }
        assert order[..|order|] == order;
      }
      ok := true;
    }
  }

  lemma MovePrefix(s: Store, source: Path, dest: Path, order: seq<Path>, i: nat)
    requires i < |order| && forall p :: p in order[..i + 1] ==> |source| <= |p|
    ensures MoveUpTo(s, source, dest, order[..i + 1], i + 1)
      == MoveOne(MoveUpTo(s, source, dest, order[..i], i), source, dest, order[i])
  {
    assert order[..i + 1][i] == order[i];
    MovePrefixAt(s, source, dest, order, i, i);
  }

  lemma {:induction false} MovePrefixAt(s: Store, source: Path, dest: Path, order: seq<Path>, i: nat, n: nat)
    requires n <= i < |order| && forall p :: p in order[..i + 1] ==> |source| <= |p|
    ensures (forall p :: p in order[..i] ==> |source| <= |p|)
    ensures MoveUpTo(s, source, dest, order[..i + 1], n) == MoveUpTo(s, source, dest, order[..i], n)
    decreases n
  {
    assert order[..i + 1] == order[..i] + [order[i]];
    if n > 0 {
      MovePrefixAt(s, source, dest, order, i, n - 1);
    }
  }

  // ----- which rows are listed -----

  lemma LikeLiteral(c: char, p: string, s: string)
    requires c != '%'
    ensures Like([c] + p, s, false) <==> s != "" && (c == '_' || Same(c, s[0])) && Like(p, s[1..], false)
  {
    assert ([c] + p)[1..] == p;
  }

  lemma LikeAnything(s: string)
    ensures Like("/%", s, false) <==> s != "" && s[0] == '/'
  {
    LikeLiteral('/', "%", s);
    assert "/%" == ['/'] + "%";
    if s != "" {
      PercentMatchesAll(s[1..]);
    }
  }

  lemma {:induction false} PercentMatchesAll(s: string)
    ensures Like("%", s, false)
  {
    if s != "" {
      PercentMatchesAll(s[1..]);
    } else {
      assert "%"[1..] == "";
    }
  }

  predicate Wild(source: Path) {
    '%' in source || '_' in source
  }

  /** p lies below something that fits the source folder: same length, equal up to case where
      the source has no wildcard. */
  predicate FitsBelow(source: Path, p: Path) {
    && |p| > |source| && p[|source|] == '/'
    && forall i :: 0 <= i < |source| ==> source[i] == '%' || source[i] == '_' || Same(source[i], p[i])
  }

  lemma {:induction false} FitsListed(source: Path, p: Path)
    requires FitsBelow(source, p)
    ensures Like(source + "/%", p, false)
  {
    hide Same, Like;
    var pattern := source + "/%";
    if source == "" {
      LikeAnything(p);
      assert pattern == "/%";
    } else {
      FitsListed(source[1..], p[1..]);
      assert pattern == [source[0]] + (source[1..] + "/%");
      if source[0] == '%' {
        PercentSkips(source[1..] + "/%", p);
      } else {
        LikeLiteral(source[0], source[1..] + "/%", p);
      }
    }
  }

  lemma PercentSkips(rest: string, s: string)
    requires s != "" && Like(rest, s[1..], false)
    ensures Like("%" + rest, s, false)
  {
    assert ("%" + rest)[1..] == rest;
    assert Like("%" + rest, s[1..], false);
  }

  lemma {:induction false} PlainListed(source: Path, p: Path)
    requires !Wild(source)
    ensures Like(source + "/%", p, false) <==> FitsBelow(source, p)
  {
    hide Same, Like;
    var pattern := source + "/%";
    if source == "" {
      LikeAnything(p);
      assert pattern == "/%";
    } else {
      assert pattern == [source[0]] + (source[1..] + "/%");
      LikeLiteral(source[0], source[1..] + "/%", p);
      if p != "" {
        PlainListed(source[1..], p[1..]);
        if FitsBelow(source[1..], p[1..]) && Same(source[0], p[0]) {
          forall i | 0 <= i < |source|
            ensures Same(source[i], p[i])
          {
            assert i > 0 ==> Same(source[1..][i - 1], p[1..][i - 1]);
          }
        }
        if FitsBelow(source, p) {
          forall i | 0 <= i < |source| - 1
            ensures Same(source[1..][i], p[1..][i])
          {
            assert Same(source[i + 1], p[i + 1]);
          }
        }
      }
    }
  }

  /** Everything below the folder is listed, whatever its name. */
  lemma UnderListed(source: Path, p: Path)
    requires Under(source, p)
    ensures Listed(source, p) && |source| <= |p|
  {
    hide Like;
    if p != source {
      assert (source + "/")[|source|] == '/';
      assert forall i :: 0 <= i < |source| ==> p[i] == (source + "/")[i];
      FitsListed(source, p);
    }
  }

  /** A listed row that is not in the folder: the caller can look for one beforehand. */
  ghost predicate NoStray(rows: map<Path, Row>, source: Path) {
    forall p :: p in rows && Listed(source, p) ==> Under(source, p)
  }

  /** The listing is confined to the folder and its case variants, in every index, exactly when
      the folder's name has no LIKE wildcard. */
  lemma ListingExactly(source: Path)
    ensures (forall p ::
        Listed(source, p) ==> p == source || (|p| > |source| && p[|source|] == '/' && FoldEqual(source, p[..|source|])))
      <==> !Wild(source)
  {
    hide Like, Same;
    if Wild(source) {
      var i :| 0 <= i < |source| && (source[i] == '%' || source[i] == '_');
      StrayListed(source, i);
    } else {
      forall p | Listed(source, p)
        ensures p == source || (|p| > |source| && p[|source|] == '/' && FoldEqual(source, p[..|source|]))
      {
        PlainListed(source, p);
      }
    }
  }

  lemma StrayListed(source: Path, i: nat)
    requires i < |source| && (source[i] == '%' || source[i] == '_')
    ensures exists p :: Listed(source, p) && p != source && |p| > |source| && !FoldEqual(source, p[..|source|])
  {
    hide Like;
    var p := source[i := 'x'] + "/";
    FitsListed(source, p);
    assert p[..|source|][i] == 'x';
    assert Listed(source, p);
  }

  // ----- moving a folder -----

  /** No new path is taken by a row, and no two new paths coincide. */
  ghost predicate Apart(rows: map<Path, Row>, source: Path, dest: Path, listing: set<Path>) {
    && (forall p :: p in listing ==> p in rows && |source| <= |p| && NewPath(source, dest, p) !in rows)
    && (forall p, q :: p in listing && q in listing && NewPath(source, dest, p) == NewPath(source, dest, q) ==> p == q)
  }

  lemma ListingApart(rows: map<Path, Row>, source: Path, dest: Path, listing: set<Path>)
    requires dest !in rows && ParentClosed(rows) && NoStray(rows, source)
    requires forall p :: p in listing ==> p in rows && Listed(source, p)
    ensures Apart(rows, source, dest, listing)
  {
    hide Listed;
    forall p | p in listing
      ensures |source| <= |p| && NewPath(source, dest, p) !in rows
    {
      assert Under(source, p);
      NewPathFree(rows, source, dest, p);
    }
    forall p, q | p in listing && q in listing && NewPath(source, dest, p) == NewPath(source, dest, q)
      ensures p == q
    {
      assert Under(source, p) && Under(source, q);
      NewPathInjective(source, dest, p, q);
    }
  }

  lemma NewPathFree(rows: map<Path, Row>, source: Path, dest: Path, p: Path)
    requires dest !in rows && ParentClosed(rows) && Under(source, p)
    ensures |source| <= |p| && NewPath(source, dest, p) !in rows
  {
    var q := NewPath(source, dest, p);
    assert q[..|dest|] == dest;
    if p == source {
      assert q == dest;
    } else {
      assert (source + "/")[|source|] == '/';
      assert q[|dest|] == p[|source|] == '/';
    }
  }

  lemma NewPathInjective(source: Path, dest: Path, p: Path, q: Path)
    requires Under(source, p) && Under(source, q)
    requires |source| <= |p| && |source| <= |q| && NewPath(source, dest, p) == NewPath(source, dest, q)
    ensures p == q
  {
    var a, b := NewPath(source, dest, p), NewPath(source, dest, q);
    assert a[|dest|..] == p[|source|..] && b[|dest|..] == q[|source|..];
    StartsWithSource(source, p);
    StartsWithSource(source, q);
    assert p == p[..|source|] + p[|source|..];
    assert q == q[..|source|] + q[|source|..];
  }

  lemma StartsWithSource(source: Path, p: Path)
    requires Under(source, p)
    ensures |source| <= |p| && p[..|source|] == source
  {
    if p != source {
      assert (source + "/")[..|source|] == source;
    }
  }

  /** The rows once the paths in `done` have moved. */
  ghost predicate RowsMoved(rows0: map<Path, Row>, rows: map<Path, Row>, source: Path, dest: Path, done: set<Path>)
    requires forall p :: p in done ==> p in rows0 && |source| <= |p|
  {
    && (forall p :: p in rows0 && p !in done ==> p in rows && rows[p] == rows0[p])
    && (forall p :: p in done ==>
          var q := NewPath(source, dest, p); q in rows && rows[q] == rows0[p].(depth := Depth(q)))
    && (forall q :: q in rows ==> (q in rows0 && q !in done) || exists p :: p in done && q == NewPath(source, dest, p))
  }

  ghost predicate MetaMoved(meta0: map<Id, Meta>, meta: map<Id, Meta>, source: Path, dest: Path, done: set<Path>)
    requires forall p :: p in done ==> |source| <= |p|
  {
    && (forall id :: id in meta ==> id in meta0)
    && (forall id :: id in meta0 ==> MetaRow(meta0, meta, source, dest, done, id))
  }

  /** A move to a free path: one row changes its key and its depth. */
  lemma MoveToFree(s: Store, source: Path, dest: Path, p: Path)
    requires |source| <= |p| && p in s.rows && NewPath(source, dest, p) !in s.rows
    ensures var q := NewPath(source, dest, p);
      && MoveOne(s, source, dest, p).rows == (s.rows - {p})[q := s.rows[p].(depth := Depth(q))]
      && |MoveOne(s, source, dest, p).rows| == |s.rows|
  {
    hide Depth, NewPath;
    var q := NewPath(source, dest, p);
    assert s.rows - {q} == s.rows;
    SizeKept(s.rows, p, q, s.rows[p].(depth := Depth(q)));
  }

  lemma RowsStep(s0: Store, s: Store, source: Path, dest: Path, listing: set<Path>, done: set<Path>, p: Path)
    requires Apart(s0.rows, source, dest, listing) && done <= listing && p in listing && p !in done
    requires RowsMoved(s0.rows, s.rows, source, dest, done)
    ensures RowsMoved(s0.rows, MoveOne(s, source, dest, p).rows, source, dest, done + {p})
    ensures |MoveOne(s, source, dest, p).rows| == |s.rows|
  {
    hide Depth, MoveOne, NewPath;
    var q := NewPath(source, dest, p);
    assert q !in s.rows && p in s.rows;
    MoveToFree(s, source, dest, p);
    KeyChanged(s0.rows, s.rows, source, dest, done, p, q, MoveOne(s, source, dest, p).rows);
  }

  lemma KeyChanged(rows0: map<Path, Row>, rows: map<Path, Row>, source: Path, dest: Path, done: set<Path>, p: Path,
        q: Path,
                   after: map<Path, Row>)
    requires forall r :: r in done + {p} ==> r in rows0 && |source| <= |r|
    requires RowsMoved(rows0, rows, source, dest, done)
    requires p !in done && p in rows && q !in rows && q !in rows0 && p in rows0 && q == NewPath(source, dest, p)
    requires after == (rows - {p})[q := rows[p].(depth := Depth(q))]
    requires forall r :: r in done ==> NewPath(source, dest, r) != p
    ensures RowsMoved(rows0, after, source, dest, done + {p})
  {
    hide Depth, NewPath;
    forall r | r in after
      ensures (r in rows0 && r !in done + {p}) || exists x :: x in done + {p} && r == NewPath(source, dest, x)
    {
      if r == q {
        assert p in done + {p};
      } else if exists x :: x in done && r == NewPath(source, dest, x) {
        var x :| x in done && r == NewPath(source, dest, x);
        assert x in done + {p};
      }
    }
  }

  lemma SizeKept(rows: map<Path, Row>, p: Path, q: Path, row: Row)
    requires p in rows && q !in rows
    ensures |(rows - {p})[q := row]| == |rows|
  {
    var less := rows - {p};
    assert less.Keys == rows.Keys - {p};
    assert less[q := row].Keys == less.Keys + {q};
    assert |rows.Keys| == |rows| && |less.Keys| == |less| && |less[q := row].Keys| == |less[q := row]|;
  }

  /** One metadata row, once the paths in `done` have moved. */
  ghost predicate MetaRow(meta0: map<Id, Meta>, meta: map<Id, Meta>, source: Path, dest: Path, done: set<Path>, id: Id)
    requires id in meta0 && forall p :: p in done ==> |source| <= |p|
  {
    if meta0[id].path in done then
      id in meta && meta[id] == meta0[id].(path := NewPath(source, dest, meta0[id].path))
    else if exists p :: p in done && meta0[id].path == NewPath(source, dest, p) then id !in meta
    else id in meta && meta[id] == meta0[id]
  }

  /** What a move does to one metadata row. */
  lemma MetaOfMove(s: Store, source: Path, dest: Path, p: Path, id: Id)
    requires |source| <= |p| && NewPath(source, dest, p) != ""
    ensures var q, m := NewPath(source, dest, p), MoveOne(s, source, dest, p).meta;
      && (id in m <==> id in s.meta && s.meta[id].path != q)
      && (id in m ==> m[id] == if s.meta[id].path == p then s.meta[id].(path := q) else s.meta[id])
  {
    hide Depth, NewPath;
  }

  lemma MetaStep(s0: Store, s: Store, source: Path, dest: Path, listing: set<Path>, done: set<Path>, p: Path)
    requires Apart(s0.rows, source, dest, listing) && done <= listing && p in listing && p !in done && dest != ""
    requires MetaMoved(s0.meta, s.meta, source, dest, done)
    ensures MetaMoved(s0.meta, MoveOne(s, source, dest, p).meta, source, dest, done + {p})
  {
    hide MoveOne, MetaRow, Apart;
    ApartLengths(s0.rows, source, dest, listing);
    var n := MoveOne(s, source, dest, p).meta;
    assert forall r :: r in done + {p} ==> |source| <= |r|;
    forall id | id in n
      ensures id in s0.meta
    {
      MetaOfMove(s, source, dest, p, id);
    }
    forall id | id in s0.meta
      ensures MetaRow(s0.meta, n, source, dest, done + {p}, id)
    {
      MetaOfMove(s, source, dest, p, id);
      MetaRowStep(s0, s.meta, n, source, dest, listing, done, p, id);
    }
  }

  lemma ApartLengths(rows: map<Path, Row>, source: Path, dest: Path, listing: set<Path>)
    requires Apart(rows, source, dest, listing)
    ensures forall r :: r in listing ==> |source| <= |r|
  {
    hide NewPath;
  }

  lemma MetaRowStep(s0: Store, meta: map<Id, Meta>, after: map<Id, Meta>, source: Path, dest: Path, listing: set<Path>,
                    done: set<Path>, p: Path, id: Id)
    requires Apart(s0.rows, source, dest, listing) && done <= listing && p in listing && p !in done && id in s0.meta
    requires forall r :: r in done + {p} ==> |source| <= |r|
    requires MetaRow(s0.meta, meta, source, dest, done, id)
    requires var q := NewPath(source, dest, p);
      && (id in after <==> id in meta && meta[id].path != q)
      && (id in after ==> after[id] == if meta[id].path == p then meta[id].(path := q) else meta[id])
    ensures MetaRow(s0.meta, after, source, dest, done + {p}, id)
  {
    hide NewPath;
    var path, q := s0.meta[id].path, NewPath(source, dest, p);
    if path in done {
      assert NewPath(source, dest, path) != q && NewPath(source, dest, path) != p;
    } else if path == p {
      assert !exists r :: r in done && p == NewPath(source, dest, r);
    } else if exists r :: r in done && path == NewPath(source, dest, r) {
      var r :| r in done && path == NewPath(source, dest, r);
      assert r in done + {p};
    } else if path == q {
      assert p in done + {p} && path == NewPath(source, dest, p);
    }
  }

  lemma ElementsNext(order: seq<Path>, n: nat)
    requires 0 < n <= |order| && forall i, j :: 0 <= i < j < |order| ==> order[i] != order[j]
    ensures Elements(order[..n]) == Elements(order[..n - 1]) + {order[n - 1]}
    ensures order[n - 1] !in Elements(order[..n - 1]) && Elements(order[..n]) <= Elements(order)
  {
    assert order[..n] == order[..n - 1] + [order[n - 1]];
  }

  lemma {:induction false} MovedUpTo(s: Store, source: Path, dest: Path, order: seq<Path>, n: nat)
    requires n <= |order| && dest != "" && Apart(s.rows, source, dest, Elements(order))
    requires forall i, j :: 0 <= i < j < |order| ==> order[i] != order[j]
    ensures var r := MoveUpTo(s, source, dest, order, n);
      && |r.rows| == |s.rows|
      && RowsMoved(s.rows, r.rows, source, dest, Elements(order[..n]))
      && MetaMoved(s.meta, r.meta, source, dest, Elements(order[..n]))
  {
    hide MoveOne, Depth, RowsMoved, MetaMoved;
    if n == 0 {
      NoneMoved(s, source, dest);
      assert Elements(order[..0]) == {};
    } else {
      MovedUpTo(s, source, dest, order, n - 1);
      var r := MoveUpTo(s, source, dest, order, n - 1);
      var done, p := Elements(order[..n - 1]), order[n - 1];
      ElementsNext(order, n);
      RowsStep(s, r, source, dest, Elements(order), done, p);
      MetaStep(s, r, source, dest, Elements(order), done, p);
    }
  }

  lemma NoneMoved(s: Store, source: Path, dest: Path)
    ensures RowsMoved(s.rows, s.rows, source, dest, {}) && MetaMoved(s.meta, s.meta, source, dest, {})
  {
  }

  /** Moving a folder to a path the index does not have, in an index that has every parent
      directory and no stray row: the listed rows are exactly those of the folder; no row is lost or
      overwritten; each keeps its contents under its new path with the depth of that path and
      its metadata goes along; everything outside the folder stays, even when the
      destination lies inside the source. */
  lemma FolderReRooted(s: Store, source: Path, dest: Path, order: seq<Path>)
    requires dest != "" && dest !in s.rows && ParentClosed(s.rows) && NoStray(s.rows, source)
    requires forall p :: p in order <==> p in s.rows && Listed(source, p)
    requires forall i, j :: 0 <= i < j < |order| ==> order[i] != order[j]
    ensures forall p :: p in order <==> p in s.rows && Under(source, p)
    ensures forall p :: p in order ==> |source| <= |p|
    ensures var r := MoveUpTo(s, source, dest, order, |order|);
      && |r.rows| == |s.rows|
      && RowsMoved(s.rows, r.rows, source, dest, Elements(order))
      && MetaMoved(s.meta, r.meta, source, dest, Elements(order))
  {
    hide Listed, MoveOne, RowsMoved, MetaMoved, ParentClosed;
    forall p | p in s.rows && Under(source, p)
      ensures Listed(source, p)
    {
      UnderListed(source, p);
    }
    ListingApart(s.rows, source, dest, Elements(order));
    MovedUpTo(s, source, dest, order, |order|);
    assert order[..|order|] == order;
  }

  // ----- exactly when a folder moves cleanly -----

  /** What a clean move leaves: the folder under its new paths, everything else as it was. */
  ghost predicate ReRooted(s: Store, r: Store, source: Path, dest: Path)
    requires forall p :: p in Subtree(s.rows, source) ==> |source| <= |p|
  {
    && |r.rows| == |s.rows|
    && RowsMoved(s.rows, r.rows, source, dest, Subtree(s.rows, source))
    && MetaMoved(s.meta, r.meta, source, dest, Subtree(s.rows, source))
    && (forall p :: p in Subtree(s.rows, source) ==>
          var q := NewPath(source, dest, p); q in r.rows && RightDepth(q, r.rows[q].depth))
  }

  ghost function Subtree(rows: map<Path, Row>, source: Path): set<Path> {
    set p | p in rows && Under(source, p)
  }

  /** The listed rows outside the folder. */
  ghost function Strays(rows: map<Path, Row>, source: Path): set<Path> {
    set p | p in rows && Listed(source, p) && !Under(source, p)
  }

  /** A path that no other listed path maps to. */
  ghost predicate Unclaimed(source: Path, dest: Path, order: seq<Path>, p: Path) {
    forall q :: q in order && q != p && |source| <= |q| ==> NewPath(source, dest, q) != p
  }

  lemma MovedAway(s: Store, source: Path, dest: Path, q: Path)
    requires |source| <= |q|
    ensures var r := MoveOne(s, source, dest, q).rows;
      && (NewPath(source, dest, q) == q ==> q !in r)
      && (q in r ==> NewPath(source, dest, q) == q)
      && (forall p :: p in r ==> p in s.rows || p == NewPath(source, dest, q))
  {
    hide NewPath, Depth;
  }

  /** Once such a path has had its turn its row is gone for good, even when it maps to itself:
      then the delete takes it and nothing is left to rename. */
  lemma {:induction false} UnclaimedLost(s: Store, source: Path, dest: Path, order: seq<Path>, n: nat, p: Path)
    requires n <= |order| && forall q :: q in order ==> |source| <= |q|
    requires Unclaimed(source, dest, order, p) && p in order[..n]
    ensures p !in MoveUpTo(s, source, dest, order, n).rows
    decreases n
  {
    hide NewPath, MoveOne;
    var q := order[n - 1];
    assert order[..n] == order[..n - 1] + [q];
    MovedAway(MoveUpTo(s, source, dest, order, n - 1), source, dest, q);
    if q != p {
      UnclaimedLost(s, source, dest, order, n - 1, p);
    }
  }

  lemma {:induction false} Longest(paths: set<Path>) returns (p: Path)
    requires paths != {}
    ensures p in paths && forall q :: q in paths ==> |q| <= |p|
    decreases paths
  {
    p :| p in paths;
    if paths != {p} {
      var q := Longest(paths - {p});
      p := if |q| > |p| then q else p;
    }
  }

  lemma {:induction false} Shortest(paths: set<Path>) returns (p: Path)
    requires paths != {}
    ensures p in paths && forall q :: q in paths ==> |p| <= |q|
    decreases paths
  {
    p :| p in paths;
    if paths != {p} {
      var q := Shortest(paths - {p});
      p := if |q| < |p| then q else p;
    }
  }

  lemma NewPathLength(source: Path, dest: Path, q: Path)
    requires |source| <= |q|
    ensures var n := NewPath(source, dest, q);
      && |n| == |dest| + |q| - |source| && n[..|dest|] == dest
      && (|source| == |dest| && q[..|dest|] == dest ==> n == q)
  {
    if |source| == |dest| && q[..|dest|] == dest {
      assert q == q[..|dest|] + q[|dest|..];
    }
  }

  /** Among the strays there is one that no listed row maps to: one that does not start with the
      destination, or one of extreme length. */
  lemma UnclaimedStray(rows: map<Path, Row>, source: Path, dest: Path, order: seq<Path>) returns (p: Path)
    requires dest !in rows && ParentClosed(rows) && Strays(rows, source) != {}
    requires forall q :: q in order <==> q in rows && Listed(source, q)
    requires forall q :: q in order ==> |source| <= |q|
    ensures p in Strays(rows, source) && Unclaimed(source, dest, order, p)
  {
    hide Listed, ParentClosed, NewPath, Under;
    var strays := Strays(rows, source);
    if |dest| < |source| {
      p := Longest(strays);
    } else if |dest| > |source| {
      p := Shortest(strays);
    } else if exists q :: q in strays && q[..|dest|] != dest {
      p :| p in strays && p[..|dest|] != dest;
    } else {
      p :| p in strays;
    }
    forall q | q in order && q != p && |source| <= |q|
      ensures NewPath(source, dest, q) != p
    {
      NewPathLength(source, dest, q);
      if Under(source, q) {
        NewPathFree(rows, source, dest, q);
      } else {
        assert q in strays;
      }
    }
  }

  /** A stray row always spoils the move: some row outside the folder is gone afterwards. */
  lemma StraySpoils(s: Store, source: Path, dest: Path, order: seq<Path>) returns (p: Path)
    requires dest !in s.rows && ParentClosed(s.rows) && !NoStray(s.rows, source)
    requires forall q :: q in order <==> q in s.rows && Listed(source, q)
    requires forall q :: q in order ==> |source| <= |q|
    ensures p in s.rows && !Under(source, p) && p !in MoveUpTo(s, source, dest, order, |order|).rows
  {
    hide Listed, ParentClosed, Under, MoveUpTo;
    var q :| q in s.rows && Listed(source, q) && !Under(source, q);
    assert q in Strays(s.rows, source);
    p := UnclaimedStray(s.rows, source, dest, order);
    assert order[..|order|] == order;
    UnclaimedLost(s, source, dest, order, |order|, p);
  }

  /** In an index with every parent directory, moving a folder to a new path returns and re-roots
      exactly that folder if and only if no stray row is listed with it. Otherwise it refuses, on
      a listed path shorter than the source, or takes a row that is not in the folder. */
  lemma FolderMoveExactly(s: Store, source: Path, dest: Path, order: seq<Path>)
    requires dest != "" && dest !in s.rows && ParentClosed(s.rows)
    requires forall p :: p in order <==> p in s.rows && Listed(source, p)
    requires forall i, j :: 0 <= i < j < |order| ==> order[i] != order[j]
    ensures forall p :: p in Subtree(s.rows, source) ==> |source| <= |p|
    ensures NoStray(s.rows, source) <==>
      && (forall p :: p in order ==> |source| <= |p|)
      && ReRooted(s, MoveUpTo(s, source, dest, order, |order|), source, dest)
  {
    hide *;
    SubtreeLong(s.rows, source);
    if NoStray(s.rows, source) {
      FolderReRooted(s, source, dest, order);
      SubtreeListed(s.rows, source, order);
      ReRootedFrom(s, MoveUpTo(s, source, dest, order, |order|), source, dest);
    } else if forall p :: p in order ==> |source| <= |p| {
      var p := StraySpoils(s, source, dest, order);
      OutsideKept(s, MoveUpTo(s, source, dest, order, |order|), source, dest, p);
    }
  }

  lemma SubtreeLong(rows: map<Path, Row>, source: Path)
    ensures forall p :: p in Subtree(rows, source) ==> |source| <= |p|
  {
    hide Listed, Under;
    forall p | p in Subtree(rows, source)
      ensures |source| <= |p|
    {
      UnderListed(source, p);
    }
  }

  lemma SubtreeListed(rows: map<Path, Row>, source: Path, order: seq<Path>)
    requires forall p :: p in order <==> p in rows && Under(source, p)
    ensures Subtree(rows, source) == Elements(order)
  {
    hide Under;
  }

  lemma ReRootedFrom(s: Store, r: Store, source: Path, dest: Path)
    requires forall p :: p in Subtree(s.rows, source) ==> |source| <= |p|
    requires |r.rows| == |s.rows| && RowsMoved(s.rows, r.rows, source, dest, Subtree(s.rows, source))
    requires MetaMoved(s.meta, r.meta, source, dest, Subtree(s.rows, source))
    ensures ReRooted(s, r, source, dest)
  {
    hide NewPath, Depth, MetaMoved, Subtree, RightDepth;
    forall p | p in Subtree(s.rows, source)
      ensures var q := NewPath(source, dest, p); q in r.rows && RightDepth(q, r.rows[q].depth)
    {
      DepthIsRight(NewPath(source, dest, p));
    }
  }

  lemma OutsideKept(s: Store, r: Store, source: Path, dest: Path, p: Path)
    requires p in s.rows && !Under(source, p) && p !in r.rows
    requires forall q :: q in Subtree(s.rows, source) ==> |source| <= |q|
    ensures !ReRooted(s, r, source, dest)
  {
    hide Under, MetaMoved, NewPath;
    assert p !in Subtree(s.rows, source);
  }

  lemma {:induction false} ComponentsJoin(a: Path, b: Path)
    requires b == "" || b[0] == '/'
    ensures Components(a + b) == Components(a) + Components(b)
  {
    if b == "" {
      assert a + b == a;
    } else {
      var n := |b| - 1;
      ComponentsJoin(a, b[..n]);
      assert (a + b)[..|a| + n] == a + b[..n];
    }
  }

  /** Every row of a moved folder changes its depth by the same amount. */
  lemma DepthShift(source: Path, dest: Path, p: Path)
    requires Under(source, p) && Components(source) > 0 && Components(dest) > 0
    ensures |source| <= |p| && Depth(NewPath(source, dest, p)) - Depth(dest) == Depth(p) - Depth(source)
  {
    StartsWithSource(source, p);
    var rest := p[|source|..];
    if p != source {
      assert (source + "/")[|source|] == '/';
    }
    assert p == source + rest;
    ComponentsJoin(source, rest);
    ComponentsJoin(dest, rest);
  }

  /** A case variant of the folder is listed with it and can be lost: both rows get the same new
      path and the second move deletes the first. */
  lemma CaseVariantLoses(a: Row, b: Row)
    ensures var s := Store(map["a/x" := a, "A/x" := b], map[]);
      && Listed("a", "a/x") && Listed("a", "A/x")
      && MoveUpTo(s, "a", "b", ["a/x", "A/x"], 2).rows == map["b/x" := b.(depth := Depth("b/x"))]
  {
    hide Depth, MoveOne;
    var s := Store(map["a/x" := a, "A/x" := b], map[]);
    FitsListed("a", "a/x");
    FitsListed("a", "A/x");
    var order := ["a/x", "A/x"];
    assert MoveUpTo(s, "a", "b", order, 0) == s;
    FirstMove(a, b);
    SecondMove(a, b);
    assert MoveUpTo(s, "a", "b", order, 1) == MoveOne(s, "a", "b", "a/x");
  }

  lemma FirstMove(a: Row, b: Row)
    ensures MoveOne(Store(map["a/x" := a, "A/x" := b], map[]), "a", "b", "a/x")
      == Store(map["A/x" := b, "b/x" := a.(depth := Depth("b/x"))], map[])
  {
    hide Depth;
    assert NewPath("a", "b", "a/x") == "b/x";
    var s := Store(map["a/x" := a, "A/x" := b], map[]);
    assert DeleteEntry(s, "b/x") == s;
  }

  lemma SecondMove(a: Row, b: Row)
    ensures MoveOne(Store(map["A/x" := b, "b/x" := a.(depth := Depth("b/x"))], map[]), "a", "b", "A/x")
      == Store(map["b/x" := b.(depth := Depth("b/x"))], map[])
  {
    hide Depth;
    assert NewPath("a", "b", "A/x") == "b/x";
    var s := Store(map["A/x" := b, "b/x" := a.(depth := Depth("b/x"))], map[]);
    assert DeleteEntry(s, "b/x") == Store(map["A/x" := b], map[]);
  }

  // ----- moving a file -----

  /** A file move returns unless the extension changes and the new kind cannot be detected. */
  lemma FileMoveReturns(s: Store, source: Path, dest: Path, newKind: Option<int>)
    requires source in s.rows
    ensures MoveFile(s, source, dest, newKind).Some?
      <==> newKind.Some? || exists e :: IsExtension(source, e) && IsExtension(dest, e)
  {
    hide IsExtension, Extension, ReplacePath, DeleteEntry;
    ExtensionExactly(source);
    ExtensionExactly(dest);
  }

  /** A file keeps its hash and gets the depth of its new path; whatever was at the destination
      is replaced, its metadata dropped and the file's metadata moved in; the rest is unchanged. */
  lemma FileMoved(s: Store, source: Path, dest: Path, newKind: Option<int>)
    requires source in s.rows && source != dest && dest != ""
    requires MoveFile(s, source, dest, newKind).Some? && forall id :: id in s.meta ==> s.meta[id].path in s.rows
    ensures var r := MoveFile(s, source, dest, newKind).value;
      && r.rows.Keys == s.rows.Keys - {source} + {dest}
      && (forall p :: p in s.rows && p != source && p != dest ==> r.rows[p] == s.rows[p])
      && r.rows[dest].hash == s.rows[source].hash && RightDepth(dest, r.rows[dest].depth)
      && (forall e, e' :: IsExtension(source, e) && IsExtension(dest, e') ==>
            if e == e' then r.rows[dest].kind == s.rows[source].kind else Some(r.rows[dest].kind) == newKind)
      && (forall id :: id in r.meta <==> id in s.meta && s.meta[id].path != dest)
      && (forall id :: id in r.meta ==>
            r.meta[id] == if s.meta[id].path == source then s.meta[id].(path := dest) else s.meta[id])
  {
    hide Depth, Extension, RightDepth, IsExtension;
    DepthIsRight(dest);
    ExtensionExactly(source);
    ExtensionExactly(dest);
  }
}
