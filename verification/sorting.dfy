/** Debug mode sorts the registry by name (`sort.Slice` with `Name < Name`)
    before anything else looks at it. The sort is modelled as an insertion sort
    on sequences; its contract is ascending order plus permutation. */
module DebugSort {
  import opened Text
  import opened Registry

  /** `a` may come before `b`: `b.name < a.name` does not hold. */
  predicate NameLe(a: ApiRequest, b: ApiRequest)
  {
    !Less(b.name, a.name)
  }

  predicate SortedByName(s: seq<ApiRequest>)
  {
    forall i, j :: 0 <= i < j < |s| ==> NameLe(s[i], s[j])
  }

  predicate DistinctNames(s: seq<ApiRequest>)
  {
    forall i, j :: 0 <= i < j < |s| ==> s[i].name != s[j].name
  }

  lemma NameLeTransitive(a: ApiRequest, b: ApiRequest, c: ApiRequest)
    requires NameLe(a, b) && NameLe(b, c)
    ensures NameLe(a, c)
  {
    if Less(c.name, a.name) {
      LessTrichotomous(a.name, b.name);
      if Less(a.name, b.name) {
        LessTransitive(c.name, a.name, b.name);
      }
    }
  }

  /** No entry of `s` comes before `y`. */
  predicate LowerBound(y: ApiRequest, s: seq<ApiRequest>)
  {
    forall j :: 0 <= j < |s| ==> NameLe(y, s[j])
  }

  lemma PrependSorted(y: ApiRequest, s: seq<ApiRequest>)
    requires SortedByName(s) && LowerBound(y, s)
    ensures SortedByName([y] + s)
  {
    var t := [y] + s;
    forall i, j | 0 <= i < j < |t| ensures NameLe(t[i], t[j]) {
      if i > 0 {
        assert t[i] == s[i - 1] && t[j] == s[j - 1];
      }
    }
  }

  /** A lower bound of the smallest entry bounds the whole ascending sequence. */
  lemma LowerBoundOfHead(y: ApiRequest, s: seq<ApiRequest>)
    requires SortedByName(s) && |s| > 0 && NameLe(y, s[0])
    ensures LowerBound(y, s)
  {
    forall j | 0 <= j < |s| ensures NameLe(y, s[j]) {
      if j > 0 { NameLeTransitive(y, s[0], s[j]); }
    }
  }

  /** A lower bound of `s` and of `x` bounds any permutation of `s` plus `x`. */
  lemma LowerBoundOfPermutation(y: ApiRequest, s: seq<ApiRequest>, x: ApiRequest, t: seq<ApiRequest>)
    requires LowerBound(y, s) && NameLe(y, x)
    requires multiset(t) == multiset(s) + multiset{x}
    ensures LowerBound(y, t)
  {
    forall j | 0 <= j < |t| ensures NameLe(y, t[j]) {
      assert t[j] in multiset(t);
      if t[j] != x {
        assert t[j] in multiset(s);
        var k :| 0 <= k < |s| && s[k] == t[j];
      }
    }
  }

  /** Putting the head of `s` back in front of `x` inserted into the tail of
      `s` keeps the order when `x` comes after that head. */
  lemma InsertBehindHead(x: ApiRequest, s: seq<ApiRequest>, rest: seq<ApiRequest>)
    requires SortedByName(s) && |s| > 0 && !NameLe(x, s[0])
    requires SortedByName(rest) && multiset(rest) == multiset(s[1..]) + multiset{x}
    ensures SortedByName([s[0]] + rest)
    ensures multiset([s[0]] + rest) == multiset(s) + multiset{x}
  {
    assert s == [s[0]] + s[1..];
    LessAsymmetric(s[0].name, x.name);
    LowerBoundOfPermutation(s[0], s[1..], x, rest);
    PrependSorted(s[0], rest);
  }

  /** Insert `x` into an ascending sequence, before the first entry whose name
      is not smaller than `x`'s. */
  function InsertByName(x: ApiRequest, s: seq<ApiRequest>): (r: seq<ApiRequest>)
    requires SortedByName(s)
    ensures SortedByName(r)
    ensures multiset(r) == multiset(s) + multiset{x}
  {
    if |s| == 0 then [x]
    else if NameLe(x, s[0]) then
      LowerBoundOfHead(x, s);
      PrependSorted(x, s);
      [x] + s
    else
      var rest := InsertByName(x, s[1..]);
      InsertBehindHead(x, s, rest);
      [s[0]] + rest
  }

  /** The debug-mode sort: ascending by name and a permutation of its input. */
  function SortByName(s: seq<ApiRequest>): (r: seq<ApiRequest>)
    ensures SortedByName(r)
    ensures multiset(r) == multiset(s)
  {
    if |s| == 0 then []
    else
      assert s == [s[0]] + s[1..];
      InsertByName(s[0], SortByName(s[1..]))
  }

  /** Reordering the registry never changes what the action lookup accepts. */
  lemma PermutationKeepsCheckAction(a: seq<ApiRequest>, b: seq<ApiRequest>, action: string)
    requires multiset(a) == multiset(b)
    ensures CheckAction(a, action) == CheckAction(b, action)
  {
    if CheckAction(a, action) {
      var i :| 0 <= i < |a| && NameMatches(a[i], action);
      assert a[i] in multiset(b);
      var j :| 0 <= j < |b| && b[j] == a[i];
    }
    if CheckAction(b, action) {
      var j :| 0 <= j < |b| && NameMatches(b[j], action);
      assert b[j] in multiset(a);
      var i :| 0 <= i < |a| && a[i] == b[j];
    }
  }

  /** Consequently the debug sort keeps the action lookup's answer. */
  lemma SortKeepsCheckAction(reqs: seq<ApiRequest>, action: string)
    ensures CheckAction(SortByName(reqs), action) == CheckAction(reqs, action)
  {
    PermutationKeepsCheckAction(SortByName(reqs), reqs, action);
  }

  /** Two ascending orderings of the same entries with distinct names start
      with the same entry. */
  lemma SortedPermutationSameHead(a: seq<ApiRequest>, b: seq<ApiRequest>)
    requires SortedByName(a) && SortedByName(b) && DistinctNames(a)
    requires multiset(a) == multiset(b) && |a| > 0
    ensures |b| > 0 && a[0] == b[0]
  {
    assert a[0] in multiset(b);
    var j :| 0 <= j < |b| && b[j] == a[0];
    assert b[0] in multiset(a);
    var i :| 0 <= i < |a| && a[i] == b[0];
    if i != 0 {
      assert !Less(b[0].name, a[0].name);
      if j != 0 {
        assert !Less(a[0].name, b[0].name);
        LessTrichotomous(a[0].name, b[0].name);
      }
      assert false;
    }
  }

  lemma SortedTail(s: seq<ApiRequest>)
    requires SortedByName(s) && |s| > 0
    ensures SortedByName(s[1..])
    ensures DistinctNames(s) ==> DistinctNames(s[1..])
  {
    forall i, j | 0 <= i < j < |s| - 1 ensures NameLe(s[1..][i], s[1..][j]) {
      assert s[1..][i] == s[i + 1] && s[1..][j] == s[j + 1];
    }
    if DistinctNames(s) {
      forall i, j | 0 <= i < j < |s| - 1 ensures s[1..][i].name != s[1..][j].name {
        assert s[1..][i] == s[i + 1] && s[1..][j] == s[j + 1];
      }
    }
  }

  /** Dropping a common first entry keeps the premises of uniqueness. */
  lemma DropSameHead(a: seq<ApiRequest>, b: seq<ApiRequest>)
    requires SortedByName(a) && SortedByName(b) && DistinctNames(a)
    requires |a| > 0 && |b| > 0 && a[0] == b[0] && multiset(a) == multiset(b)
    ensures SortedByName(a[1..]) && SortedByName(b[1..]) && DistinctNames(a[1..])
    ensures multiset(a[1..]) == multiset(b[1..])
  {
    SortedTail(a);
    SortedTail(b);
    assert a == [a[0]] + a[1..] && b == [b[0]] + b[1..];
    assert multiset(a[1..]) == multiset(a) - multiset{a[0]};
    assert multiset(b[1..]) == multiset(b) - multiset{b[0]};
  }

  /** Two ascending orderings of the same entries with pairwise distinct
      names are identical: although Go's `sort.Slice` is not stable, its
      result is determined whenever names are distinct. */
  lemma {:induction false} SortedPermutationUnique(a: seq<ApiRequest>, b: seq<ApiRequest>)
    requires SortedByName(a) && SortedByName(b) && DistinctNames(a)
    requires multiset(a) == multiset(b)
    ensures a == b
  {
    if |a| == 0 {
      assert |b| == |multiset(b)| == 0;
    } else {
      SortedPermutationSameHead(a, b);
      DropSameHead(a, b);
      SortedPermutationUnique(a[1..], b[1..]);
      assert a == [a[0]] + a[1..] && b == [b[0]] + b[1..];
    }
  }

  /** Unique folded names imply distinct names. */
  lemma UniqueFoldedNamesDistinct(s: seq<ApiRequest>)
    requires UniqueFoldedNames(s)
    ensures DistinctNames(s)
  {
  }

  /** The shipped registry is already ascending, so the debug sort leaves it
      (and in particular its entry 0) unchanged. */
  lemma ShippedRegistrySortIsIdentity()
    ensures SortByName(ApiRequests) == ApiRequests
  {
    var d, s := ApiRequests[0].name, ApiRequests[1].name;
    assert d[..3] == s[..3] && d[3] == 'D' && s[3] == 'S';
    assert Less(d[3..], s[3..]);
    assert Less(d, s) by {
      assert d[1..][2..] == d[3..] && s[1..][2..] == s[3..];
      assert d[1..][1..][1..] == d[3..] && s[1..][1..][1..] == s[3..];
    }
    LessAsymmetric(d, s);
    assert SortedByName(ApiRequests);
    ShippedNamesUnique();
    UniqueFoldedNamesDistinct(ApiRequests);
    SortedPermutationUnique(ApiRequests, SortByName(ApiRequests));
  }

  /** In general the sort does move a different entry to position 0: a
      registry listed out of name order changes its first entry. */
  lemma SortCanChangeEntryZero()
    ensures var reqs := [ApiRequest("b", "", "", ""), ApiRequest("a", "", "", "")];
            SortByName(reqs)[0] != reqs[0]
  {
    var reqs := [ApiRequest("b", "", "", ""), ApiRequest("a", "", "", "")];
    var r := SortByName(reqs);
    assert Less("a", "b");
    LessAsymmetric("a", "b");
    assert |r| == 2 by { assert |multiset(r)| == |multiset(reqs)|; }
  }
}
