/** Problem 1: a task list whose view keeps the tasks of the selected status
    and shows active tasks first, completed tasks second and all others last. */
module TaskList {
  import opened Seqs
  import opened Strings

  /** One submitted form entry. */
  datatype Task = Task(name: string, status: string)

  /** The three groups the view is split into. */
  datatype Group = Active | Completed | Other

  /** The filter selection that keeps every task. */
  const ALL: string := "all"

  /** The group of a task, decided on its lower-cased status. */
  function GroupOf(t: Task): Group {
    var status := ToLower(t.status);
    if status == "active" then Active
    else if status == "completed" then Completed
    else Other
  }

  /** Position of a group in the view. */
  function Rank(g: Group): nat {
    match g
    case Active => 0
    case Completed => 1
    case Other => 2
  }

  /** The status filter: everything for `ALL`, otherwise the tasks whose
      lower-cased status is the selection. */
  function FilterByStatus(data: seq<Task>, show: string): (r: seq<Task>)
    ensures show == ALL ==> r == data
    ensures show != ALL ==> forall t :: t in r <==> t in data && ToLower(t.status) == show
    ensures show != ALL ==> forall t :: multiset(r)[t] == if ToLower(t.status) == show then multiset(data)[t] else 0
    ensures IsSubsequence(r, data)
  {
    if show == ALL then
      IsSubsequenceOfItself(data);
      data
    else
      FilterIsSubsequence(data, (t: Task) => ToLower(t.status) == show);
      FilterMembership(data, (t: Task) => ToLower(t.status) == show);
      FilterCount(data, (t: Task) => ToLower(t.status) == show);
      Filter(data, (t: Task) => ToLower(t.status) == show)
  }

  /** The tasks of `s` that `key` puts in group `g`, in their order. */
  function Bucket(s: seq<Task>, key: Task -> Group, g: Group): seq<Task> {
    Filter(s, (t: Task) => key(t) == g)
  }

  /** Reference definition of the grouping: the three buckets, each in input
      order, concatenated in the order active, completed, other. */
  function Grouped(s: seq<Task>, key: Task -> Group): seq<Task> {
    Bucket(s, key, Active) + Bucket(s, key, Completed) + Bucket(s, key, Other)
  }

  /** Appending one task extends its own bucket by that task and leaves the others alone. */
  lemma BucketSnoc(s: seq<Task>, x: Task, key: Task -> Group, g: Group)
    ensures Bucket(s + [x], key, g) == Bucket(s, key, g) + (if key(x) == g then [x] else [])
  {
    FilterAppend(s, [x], (t: Task) => key(t) == g);
    assert [x][1..] == [];
  }

  /** The one-pass grouping: push each task onto the array of its group,
      then concatenate the three arrays. It computes the reference grouping. */
  method GroupByStatus(filtered: seq<Task>) returns (r: seq<Task>)
    ensures r == Grouped(filtered, GroupOf)
  {
    var activeData, completedData, otherData := [], [], [];
    for i := 0 to |filtered|
      invariant activeData == Bucket(filtered[..i], GroupOf, Active)
      invariant completedData == Bucket(filtered[..i], GroupOf, Completed)
      invariant otherData == Bucket(filtered[..i], GroupOf, Other)
    {
      var item := filtered[i];
      assert filtered[..i + 1] == filtered[..i] + [item];
      BucketSnoc(filtered[..i], item, GroupOf, Active);
      BucketSnoc(filtered[..i], item, GroupOf, Completed);
      BucketSnoc(filtered[..i], item, GroupOf, Other);
      var status := ToLower(item.status);
      if status == "active" {
        activeData := activeData + [item];
      } else if status == "completed" {
        completedData := completedData + [item];
      } else {
        otherData := otherData + [item];
      }
    }
    assert filtered[..|filtered|] == filtered;
    r := activeData + completedData + otherData;
  }

  /** The memoised view: the status filter followed by the grouping. The
      result is a permutation of the filtered list, ordered by group, and
      stable within each group. */
  method FinalData(data: seq<Task>, show: string) returns (r: seq<Task>)
    ensures r == Grouped(FilterByStatus(data, show), GroupOf)
    ensures multiset(r) == multiset(FilterByStatus(data, show))
    ensures forall i, j :: 0 <= i < j < |r| ==> Rank(GroupOf(r[i])) <= Rank(GroupOf(r[j]))
    ensures forall g :: Bucket(r, GroupOf, g) == Bucket(FilterByStatus(data, show), GroupOf, g)
  {
    var filtered := FilterByStatus(data, show);
    r := GroupByStatus(filtered);
    GroupedIsPermutation(filtered, GroupOf);
    GroupedIsOrdered(filtered, GroupOf);
    forall g ensures Bucket(r, GroupOf, g) == Bucket(filtered, GroupOf, g) {
      GroupedIsStable(filtered, GroupOf, g);
    }
  }

  /** The bucket of a list with one more task in front. */
  lemma BucketCons(x: Task, rest: seq<Task>, key: Task -> Group, g: Group)
    ensures multiset(Bucket([x] + rest, key, g))
            == (if key(x) == g then multiset{x} else multiset{}) + multiset(Bucket(rest, key, g))
  {
    assert ([x] + rest)[1..] == rest;
    assert Bucket([x] + rest, key, g) == (if key(x) == g then [x] else []) + Bucket(rest, key, g);
  }

  /** Every task falls in exactly one of the three buckets. */
  lemma {:induction false} BucketsPartition(s: seq<Task>, key: Task -> Group)
    ensures multiset(Bucket(s, key, Active)) + multiset(Bucket(s, key, Completed)) + multiset(Bucket(s, key, Other))
            == multiset(s)
  {
    if s != [] {
      var x, rest := s[0], s[1..];
      assert s == [x] + rest;
      BucketsPartition(rest, key);
      BucketCons(x, rest, key, Active);
      BucketCons(x, rest, key, Completed);
      BucketCons(x, rest, key, Other);
    }
  }

  /** The grouping neither loses nor duplicates a task: it is a permutation. */
  lemma GroupedIsPermutation(s: seq<Task>, key: Task -> Group)
    ensures multiset(Grouped(s, key)) == multiset(s)
    ensures |Grouped(s, key)| == |s|
  {
    BucketsPartition(s, key);
    assert |multiset(Grouped(s, key))| == |multiset(s)|;
  }

  /** Every task of the first bucket comes before every task of the second,
      and every task of the second before every task of the third. */
  lemma GroupedIsOrdered(s: seq<Task>, key: Task -> Group)
    ensures forall i, j :: 0 <= i < j < |Grouped(s, key)| ==>
              Rank(key(Grouped(s, key)[i])) <= Rank(key(Grouped(s, key)[j]))
  {
    var a, c, o := Bucket(s, key, Active), Bucket(s, key, Completed), Bucket(s, key, Other);
    FilterMembership(s, (t: Task) => key(t) == Active);
    FilterMembership(s, (t: Task) => key(t) == Completed);
    FilterMembership(s, (t: Task) => key(t) == Other);
    var r := Grouped(s, key);
    forall i | 0 <= i < |r|
      ensures Rank(key(r[i])) == if i < |a| then 0 else if i < |a| + |c| then 1 else 2
    {
      if i < |a| {
        assert r[i] == a[i] && a[i] in a;
      } else if i < |a| + |c| {
        assert r[i] == c[i - |a|] && c[i - |a|] in c;
      } else {
        assert r[i] == o[i - |a| - |c|] && o[i - |a| - |c|] in o;
      }
    }
  }

  /** Re-bucketing a bucket keeps it whole when the groups agree and empties it otherwise. */
  lemma {:induction false} BucketOfBucket(s: seq<Task>, key: Task -> Group, g: Group, h: Group)
    ensures Bucket(Bucket(s, key, h), key, g) == if g == h then Bucket(s, key, g) else []
  {
    if s != [] {
      BucketOfBucket(s[1..], key, g, h);
      var b := Bucket(s, key, h);
      if key(s[0]) == h {
        assert b == [s[0]] + Bucket(s[1..], key, h);
        assert b[1..] == Bucket(s[1..], key, h);
        assert Bucket(b, key, g) == (if key(s[0]) == g then [s[0]] else []) + Bucket(b[1..], key, g);
      } else {
        assert b == Bucket(s[1..], key, h);
      }
    }
  }

  /** Stability: the tasks of each group appear in the grouping in their input order. */
  lemma GroupedIsStable(s: seq<Task>, key: Task -> Group, g: Group)
    ensures Bucket(Grouped(s, key), key, g) == Bucket(s, key, g)
  {
    var p := (t: Task) => key(t) == g;
    var a, c, o := Bucket(s, key, Active), Bucket(s, key, Completed), Bucket(s, key, Other);
    FilterAppend(a + c, o, p);
    FilterAppend(a, c, p);
    BucketOfBucket(s, key, g, Active);
    BucketOfBucket(s, key, g, Completed);
    BucketOfBucket(s, key, g, Other);
  }

  /** With the selection `ALL` the view is a permutation of the whole list. */
  lemma AllShowsEverything(data: seq<Task>)
    ensures multiset(Grouped(FilterByStatus(data, ALL), GroupOf)) == multiset(data)
  {
    GroupedIsPermutation(data, GroupOf);
  }

  /** With any other selection the view holds exactly the tasks whose
      lower-cased status is the selection, and as many as the filter keeps. */
  lemma SelectionShowsMatching(data: seq<Task>, show: string)
    requires show != ALL
    ensures forall t :: t in Grouped(FilterByStatus(data, show), GroupOf) <==> t in data && ToLower(t.status) == show
    ensures |Grouped(FilterByStatus(data, show), GroupOf)| == |FilterByStatus(data, show)|
  {
    var f := FilterByStatus(data, show);
    GroupedIsPermutation(f, GroupOf);
    forall t ensures t in Grouped(f, GroupOf) <==> t in f {
      assert t in Grouped(f, GroupOf) <==> t in multiset(Grouped(f, GroupOf));
    }
  }

  /** Submitting the form appends the new entry to the backing list. */
  function Submit(data: seq<Task>, name: string, status: string): (r: seq<Task>)
    ensures |r| == |data| + 1
    ensures r[..|data|] == data && r[|data|] == Task(name, status)
  {
    data + [Task(name, status)]
  }

  /** The status filter of the extended list is the old filter result,
      followed by the new entry when the selection admits it. */
  lemma FilterAfterSubmit(data: seq<Task>, name: string, status: string, show: string)
    ensures FilterByStatus(Submit(data, name, status), show)
            == FilterByStatus(data, show) + (if show == ALL || ToLower(status) == show then [Task(name, status)] else [])
  {
    if show != ALL {
      var t, p := Task(name, status), (x: Task) => ToLower(x.status) == show;
      assert Filter([t], p) == if p(t) then [t] else [] by {
        assert [t][1..] == [];
      }
      FilterAppend(data, [t], p);
    }
  }

  /** Grouping a list extended by one task puts that task last in its bucket. */
  lemma GroupedSnoc(s: seq<Task>, x: Task, key: Task -> Group, g: Group)
    ensures Bucket(Grouped(s + [x], key), key, g)
            == Bucket(Grouped(s, key), key, g) + (if key(x) == g then [x] else [])
  {
    GroupedIsStable(s, key, g);
    GroupedIsStable(s + [x], key, g);
    BucketSnoc(s, x, key, g);
  }

  /** After a submission the new entry is the last of its group in the view
      when the selection admits it, and every group is otherwise unchanged. */
  lemma SubmitShowsLastInGroup(data: seq<Task>, name: string, status: string, show: string, g: Group)
    ensures var t := Task(name, status);
            var before := Grouped(FilterByStatus(data, show), GroupOf);
            var after := Grouped(FilterByStatus(Submit(data, name, status), show), GroupOf);
            Bucket(after, GroupOf, g)
            == if (show == ALL || ToLower(status) == show) && GroupOf(t) == g
               then Bucket(before, GroupOf, g) + [t]
               else Bucket(before, GroupOf, g)
  {
    var t := Task(name, status);
    var f := FilterByStatus(data, show);
    FilterAfterSubmit(data, name, status, show);
    if show == ALL || ToLower(status) == show {
      GroupedSnoc(f, t, GroupOf, g);
    } else {
      assert FilterByStatus(Submit(data, name, status), show) == f + [];
      assert f + [] == f;
    }
  }

  /** The comparison ignores case: a task is active exactly when its status
      spells "active" in any mix of cases, and completed exactly when it
      spells "completed"; every other status lands in the last group. */
  lemma GroupIgnoresCase(t: Task)
    ensures GroupOf(t) == Active <==> SpellsIgnoringCase(t.status, "active")
    ensures GroupOf(t) == Completed <==> SpellsIgnoringCase(t.status, "completed")
  {
    ToLowerEquals(t.status, "active");
    ToLowerEquals(t.status, "completed");
  }

  /** Grouping four tasks whose groups are active, other, completed, active. */
  lemma {:induction false} GroupFourTasks(t1: Task, t2: Task, t3: Task, t4: Task, key: Task -> Group)
    requires key(t1) == Active && key(t2) == Other && key(t3) == Completed && key(t4) == Active
    ensures Grouped([t1, t2, t3, t4], key) == [t1, t4, t3, t2]
  {
    assert [t1] == [] + [t1] && [t1, t2] == [t1] + [t2];
    assert [t1, t2, t3] == [t1, t2] + [t3] && [t1, t2, t3, t4] == [t1, t2, t3] + [t4];
    assert Bucket([t1, t2, t3, t4], key, Active) == [t1, t4] by {
      BucketSnoc([], t1, key, Active);
      BucketSnoc([t1], t2, key, Active);
      BucketSnoc([t1, t2], t3, key, Active);
      BucketSnoc([t1, t2, t3], t4, key, Active);
    }
    assert Bucket([t1, t2, t3, t4], key, Completed) == [t3] by {
      BucketSnoc([], t1, key, Completed);
      BucketSnoc([t1], t2, key, Completed);
      BucketSnoc([t1, t2], t3, key, Completed);
      BucketSnoc([t1, t2, t3], t4, key, Completed);
    }
    assert Bucket([t1, t2, t3, t4], key, Other) == [t2] by {
      BucketSnoc([], t1, key, Other);
      BucketSnoc([t1], t2, key, Other);
      BucketSnoc([t1, t2], t3, key, Other);
      BucketSnoc([t1, t2, t3], t4, key, Other);
    }
  }
}
