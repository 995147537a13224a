/** The ascending rearrangement of a tag vector, and why there is only one. */
module TagSort {
  import opened Tlv

  ghost predicate Ascending(s: seq<Tag>) {
    s == [] || ((forall t <- s[1..] :: s[0] <= t) && Ascending(s[1..]))
  }

  function InsertTag(t: Tag, s: seq<Tag>): (r: seq<Tag>)
    ensures multiset(r) == multiset(s) + multiset{t}
  {
    if s == [] || t <= s[0] then [t] + s
    else
      assert s == [s[0]] + s[1..];
      [s[0]] + InsertTag(t, s[1..])
  }

  function SortTags(s: seq<Tag>): (r: seq<Tag>)
    ensures multiset(r) == multiset(s)
  {
    if s == [] then []
    else
      assert s == [s[0]] + s[1..];
      InsertTag(s[0], SortTags(s[1..]))
  }

  lemma SortKeeps(s: seq<Tag>)
    ensures forall t :: t in SortTags(s) <==> t in s
  {
    forall t ensures t in SortTags(s) <==> t in s {
      assert t in multiset(SortTags(s)) <==> t in multiset(s);
    }
  }

  lemma HeadLeastAll(s: seq<Tag>)
    requires Ascending(s) && s != []
    ensures forall t <- s :: s[0] <= t
  {
    assert s == [s[0]] + s[1..];
  }

  lemma {:induction false} InsertAscending(t: Tag, s: seq<Tag>)
    requires Ascending(s)
    ensures Ascending(InsertTag(t, s))
  {
    if s == [] || t <= s[0] {
      assert ([t] + s)[1..] == s;
      if s != [] {
        HeadLeastAll(s);
      }
    } else {
      InsertAscending(t, s[1..]);
      var r := InsertTag(t, s[1..]);
      forall x | x in r ensures s[0] <= x {
        assert x in multiset(r);
        assert x == t || x in s[1..];
      }
      assert InsertTag(t, s)[1..] == r;
    }
  }

  lemma {:induction false} SortAscending(s: seq<Tag>)
    ensures Ascending(SortTags(s))
  {
    if s != [] {
      SortAscending(s[1..]);
      InsertAscending(s[0], SortTags(s[1..]));
    }
  }

  lemma TailCount(s: seq<Tag>)
    requires s != []
    ensures multiset(s[1..]) == multiset(s) - multiset{s[0]}
  {
    assert s == [s[0]] + s[1..];
  }

  /** Two ascending vectors with the same occurrences are equal, duplicates included. */
  lemma {:induction false} AscendingUnique(s: seq<Tag>, r: seq<Tag>)
    requires Ascending(s) && Ascending(r) && multiset(s) == multiset(r)
    ensures s == r
    decreases |s|
  {
    assert |s| == |multiset(s)| == |multiset(r)| == |r|;
    if s != [] {
      assert s[0] in multiset(r);
      assert s[0] in r;
      HeadLeastAll(r);
      assert r[0] in multiset(s);
      assert r[0] in s;
      HeadLeastAll(s);
      assert r[0] == s[0];
      TailCount(s);
      TailCount(r);
      AscendingUnique(s[1..], r[1..]);
      assert s == [s[0]] + s[1..];
      assert r == [r[0]] + r[1..];
    }
  }

  /** The tags written into the DATA section: ROOT, DATA and SIGNATURE are skipped. */
  function DataTags(s: seq<Tag>): (r: seq<Tag>)
    ensures forall t :: t in r <==> t in s && !Skipped(t)
  {
    if s == [] then []
    else if Skipped(s[0]) then DataTags(s[1..])
    else [s[0]] + DataTags(s[1..])
  }

  predicate Skipped(t: Tag) {
    t == AUTH_ROOT || t == AUTH_DATA || t == AUTH_SIGNATURE
  }

  lemma {:induction false} DataTagsCount(s: seq<Tag>, t: Tag)
    ensures multiset(DataTags(s))[t] == if Skipped(t) then 0 else multiset(s)[t]
  {
    if s != [] {
      assert s == [s[0]] + s[1..];
      DataTagsCount(s[1..], t);
    }
  }

  lemma {:induction false} DataTagsAscending(s: seq<Tag>)
    requires Ascending(s)
    ensures Ascending(DataTags(s))
  {
    if s != [] {
      DataTagsAscending(s[1..]);
      if !Skipped(s[0]) {
        assert DataTags(s)[1..] == DataTags(s[1..]);
      }
    }
  }

  /** Sorting commutes with skipping, so the DATA section is the sorted data tags. */
  lemma SortedDataTags(s: seq<Tag>)
    ensures DataTags(SortTags(s)) == SortTags(DataTags(s))
  {
    SortAscending(s);
    DataTagsAscending(SortTags(s));
    SortAscending(DataTags(s));
    var left, right := DataTags(SortTags(s)), SortTags(DataTags(s));
    forall t ensures multiset(left)[t] == multiset(right)[t] {
      if t in left || t in right {
        DataTagsCount(SortTags(s), t);
        DataTagsCount(s, t);
      } else {
        assert t !in multiset(left) && t !in multiset(right);
      }
    }
    AscendingUnique(left, right);
  }

  lemma {:induction false} DataTagsAppend(s: seq<Tag>, r: seq<Tag>)
    ensures DataTags(s + r) == DataTags(s) + DataTags(r)
  {
    if s == [] {
      assert s + r == r;
    } else {
      assert (s + r)[1..] == s[1..] + r;
      DataTagsAppend(s[1..], r);
    }
  }
}
