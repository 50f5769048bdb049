/** String search and replacement, as std::string::find and utils::stringReplace do them. */
module Text {

  predicate OccursAt(s: string, pat: string, i: nat) {
    i + |pat| <= |s| && s[i..i + |pat|] == pat
  }

  /** std::string::find from position i: the first occurrence, or the length as "npos". */
  function Find(s: string, pat: string, i: nat): (r: nat)
    requires i <= |s|
    ensures i <= r <= |s|
    ensures r < |s| ==> OccursAt(s, pat, r)
    ensures forall j :: i <= j < r ==> !OccursAt(s, pat, j)
    decreases |s| - i
  {
    if i == |s| || OccursAt(s, pat, i) then i else Find(s, pat, i + 1)
  }

  function Elements(s: seq<string>): (r: set<string>)
    ensures forall p :: p in r <==> p in s
  {
    set p | p in s
  }

  /** Every leftmost, non-overlapping occurrence of `from` replaced by `to`. */
  function Replaced(s: string, from: string, to: string): string
    requires from != ""
  {
    if s == "" then ""
    else if OccursAt(s, from, 0) then to + Replaced(s[|from|..], from, to)
    else [s[0]] + Replaced(s[1..], from, to)
  }

  lemma SuffixOccurs(s: string, pat: string, i: nat, j: nat)
    requires i <= |s|
    ensures OccursAt(s[i..], pat, j) <==> OccursAt(s, pat, i + j)
  {
    if i + j + |pat| <= |s| {
      assert s[i..][j..j + |pat|] == s[i + j..i + j + |pat|];
    }
  }

  lemma ReplacedCopies(s: string, from: string, to: string)
    requires from != "" && s != "" && !OccursAt(s, from, 0)
    ensures Replaced(s, from, to) == [s[0]] + Replaced(s[1..], from, to)
  {
  }

  lemma HeadAndTail(s: string, pos: nat, rest: string)
    requires 0 < pos <= |s|
    ensures [s[0]] + (s[1..][..pos - 1] + rest) == s[..pos] + rest && s[1..][pos - 1..] == s[pos..]
  {
  }

  /** The part before the next occurrence is copied. */
  lemma {:induction false} ReplacedSkips(s: string, from: string, to: string, pos: nat)
    requires from != "" && pos <= |s| && forall j :: 0 <= j < pos ==> !OccursAt(s, from, j)
    ensures Replaced(s, from, to) == s[..pos] + Replaced(s[pos..], from, to)
    decreases pos
  {
    hide OccursAt, Replaced;
    if pos == 0 {
      assert s[..0] + Replaced(s[0..], from, to) == Replaced(s, from, to) by {
        assert s[0..] == s;
      }
    } else {
      forall j | 0 <= j < pos - 1
        ensures !OccursAt(s[1..], from, j)
      {
        SuffixOccurs(s, from, 1, j);
      }
      ReplacedCopies(s, from, to);
      ReplacedSkips(s[1..], from, to, pos - 1);
      HeadAndTail(s, pos, Replaced(s[pos..], from, to));
    }
  }

  /** The text from `start` when its next occurrence is at `pos`, or there is none. */
  lemma ReplacedNext(s: string, from: string, to: string, start: nat, pos: nat)
    requires from != "" && start <= pos <= |s|
    requires forall j :: start <= j < pos ==> !OccursAt(s, from, j)
    ensures pos == |s| ==> Replaced(s[start..], from, to) == s[start..]
    ensures OccursAt(s, from, pos) ==>
      && pos + |from| <= |s|
      && Replaced(s[start..], from, to) == s[start..pos] + (to + Replaced(s[pos + |from|..], from, to))
  {
    hide OccursAt, Replaced;
    var rest := s[start..];
    forall j | 0 <= j < pos - start
      ensures !OccursAt(rest, from, j)
    {
      SuffixOccurs(s, from, start, j);
    }
    ReplacedSkips(rest, from, to, pos - start);
    assert rest[..pos - start] == s[start..pos];
    assert rest[pos - start..] == s[pos..];
    ReplacedAtStart(s[pos..], from, to);
    if OccursAt(s, from, pos) {
      SuffixOccurs(s, from, pos, 0);
      ReplacedAtStart(s[pos..], from, to);
      assert s[pos..][|from|..] == s[pos + |from|..];
    }
  }

  lemma ReplacedAtStart(s: string, from: string, to: string)
    requires from != ""
    ensures s == "" ==> Replaced(s, from, to) == ""
    ensures OccursAt(s, from, 0) ==> |from| <= |s| && Replaced(s, from, to) == to + Replaced(s[|from|..], from, to)
  {
  }

  /** stringReplace: search on from behind what was just inserted, so an inserted `from` is not
      replaced again. */
  method StringReplace(str: string, from: string, to: string) returns (res: string)
    ensures res == if from == "" then str else Replaced(str, from, to)
  {
    hide OccursAt, Replaced;
    res := str;
    if from == "" {
      return;
    }
    var startPos: nat := 0;
    assert str[..0] + Replaced(str[0..], from, to) == Replaced(str, from, to) by {
      assert str[0..] == str;
    }
    while true
      invariant startPos <= |res|
      invariant res[..startPos] + Replaced(res[startPos..], from, to) == Replaced(str, from, to)
      decreases |res| - startPos
    {
      var pos := Find(res, from, startPos);
      ReplacedNext(res, from, to, startPos, pos);
      if pos == |res| {
        assert res[..startPos] + res[startPos..] == res;
        return;
      }
      var tail := res[pos + |from|..];
      assert res[..pos] == res[..startPos] + res[startPos..pos];
      var next := res[..pos] + to + tail;
      assert next[..pos + |to|] == res[..pos] + to;
      assert next[pos + |to|..] == tail;
      res := next;
      startPos := pos + |to|;
    }
  }
}
