/** Run-length coding of dated values: what it means for a list of ranges to stand for a list
    of days, and why the greedy coding is the only shortest one. */
module RunLength {

  datatype Dated<K> = Dated(day: int, key: K)

  /** The days from..to (both included), all with the same key. */
  datatype Run<K> = Run(from: int, to: int, key: K)

  function ExpandRun<K>(r: Run<K>): (s: seq<Dated<K>>)
    decreases r.to - r.from
  {
    if r.to < r.from then [] else ExpandRun(Run(r.from, r.to - 1, r.key)) + [Dated(r.to, r.key)]
  }

  /** The days a list of ranges stands for, one by one. */
  function Expand<K>(rs: seq<Run<K>>): seq<Dated<K>> {
    if rs == [] then [] else Expand(rs[..|rs| - 1]) + ExpandRun(rs[|rs| - 1])
  }

  predicate Joins<K(==)>(a: Dated<K>, b: Dated<K>) {
    b.day == a.day + 1 && b.key == a.key
  }

  /** Extend the last run while the next day joins it, otherwise open a new one. */
  function Compress<K(==)>(s: seq<Dated<K>>): (rs: seq<Run<K>>)
    ensures s != [] ==> rs != [] && rs[|rs| - 1].to == s[|s| - 1].day && rs[|rs| - 1].key == s[|s| - 1].key
  {
    if s == [] then []
    else
      var last := s[|s| - 1];
      var rs := Compress(s[..|s| - 1]);
      if |s| > 1 && Joins(s[|s| - 2], last) then
        rs[..|rs| - 1] + [rs[|rs| - 1].(to := last.day)]
      else
        rs + [Run(last.day, last.day, last.key)]
  }

  /** One more than the number of neighbours that do not join; 0 for no days. */
  ghost function Cost<K>(s: seq<Dated<K>>): nat {
    if s == [] then 0
    else Cost(s[..|s| - 1]) + if |s| > 1 && Joins(s[|s| - 2], s[|s| - 1]) then 0 else 1
  }

  lemma {:induction false} RunDays<K>(r: Run<K>)
    requires r.from <= r.to
    ensures var s := ExpandRun(r);
            |s| == r.to - r.from + 1 && s[0].day == r.from
            && forall i :: 0 <= i < |s| ==> s[i] == Dated(r.from + i, r.key)
    decreases r.to - r.from
  {
    if r.from < r.to {
      RunDays(Run(r.from, r.to - 1, r.key));
    }
  }

  /** No range is empty or backward. */
  lemma {:induction false} CompressRuns<K>(s: seq<Dated<K>>, i: int)
    requires 0 <= i < |Compress(s)|
    ensures Compress(s)[i].from <= Compress(s)[i].to
  {
    var init := s[..|s| - 1];
    if i < |Compress(init)| { CompressRuns(init, i); }
  }

  /** The coding loses nothing. */
  lemma {:induction false} CompressLossless<K>(s: seq<Dated<K>>)
    ensures Expand(Compress(s)) == s
  {
    if s != [] {
      var init, last := s[..|s| - 1], s[|s| - 1];
      CompressLossless(init);
      assert s == init + [last];
      var rs := Compress(init);
      if |s| > 1 && Joins(s[|s| - 2], last) {
        CompressRuns(init, |rs| - 1);
        ExtendLast(rs, last.day);
      } else {
        AppendDay(rs, last);
      }
    }
  }

  lemma {:induction false} AppendDay<K>(rs: seq<Run<K>>, d: Dated<K>)
    ensures Expand(rs + [Run(d.day, d.day, d.key)]) == Expand(rs) + [d]
  {
    var one := Run(d.day, d.day, d.key);
    assert (rs + [one])[..|rs|] == rs;
    RunDays(one);
  }

  lemma {:induction false} ExtendLast<K>(rs: seq<Run<K>>, day: int)
    requires rs != [] && rs[|rs| - 1].from <= rs[|rs| - 1].to == day - 1
    ensures Expand(rs[..|rs| - 1] + [rs[|rs| - 1].(to := day)]) == Expand(rs) + [Dated(day, rs[|rs| - 1].key)]
  {
    var init, r := rs[..|rs| - 1], rs[|rs| - 1];
    assert (init + [r.(to := day)])[..|init|] == init;
    assert ExpandRun(r.(to := day)) == ExpandRun(r) + [Dated(day, r.key)];
  }

  lemma {:induction false} CompressLength<K>(s: seq<Dated<K>>)
    ensures |Compress(s)| == Cost(s)
  {
    if s != [] { CompressLength(s[..|s| - 1]); }
  }

  lemma {:induction false} CostConcat<K>(a: seq<Dated<K>>, b: seq<Dated<K>>)
    ensures Cost(a + b) <= Cost(a) + Cost(b)
    ensures a != [] && b != [] && Joins(a[|a| - 1], b[0]) ==> Cost(a + b) < Cost(a) + Cost(b)
  {
    if b == [] {
      assert a + b == a;
    } else {
      CostConcat(a, b[..|b| - 1]);
      assert (a + b)[..|a + b| - 1] == a + b[..|b| - 1];
    }
  }

  lemma {:induction false} CostOfRun<K>(r: Run<K>)
    ensures Cost(ExpandRun(r)) == if r.from <= r.to then 1 else 0
    decreases r.to - r.from
  {
    if r.from < r.to {
      var shorter := Run(r.from, r.to - 1, r.key);
      CostOfRun(shorter);
      RunDays(shorter);
      CostSnoc(ExpandRun(shorter), Dated(r.to, r.key));
    } else if r.from == r.to {
      CostSnoc([], Dated(r.to, r.key));
      assert ExpandRun(r) == [] + [Dated(r.to, r.key)];
    }
  }

  lemma {:induction false} CostSnoc<K>(s: seq<Dated<K>>, d: Dated<K>)
    ensures Cost(s + [d]) == Cost(s) + if s != [] && Joins(s[|s| - 1], d) then 0 else 1
  {
    assert (s + [d])[..|s|] == s;
  }

  lemma {:induction false} CostOfRuns<K>(rs: seq<Run<K>>)
    ensures Cost(Expand(rs)) <= |rs|
  {
    if rs != [] {
      CostOfRuns(rs[..|rs| - 1]);
      CostConcat(Expand(rs[..|rs| - 1]), ExpandRun(rs[|rs| - 1]));
      CostOfRun(rs[|rs| - 1]);
    }
  }

  /** No list of ranges that stands for the same days is shorter. */
  lemma {:induction false} CompressMinimal<K>(s: seq<Dated<K>>, rs: seq<Run<K>>)
    requires Expand(rs) == s
    ensures |Compress(s)| <= |rs|
  {
    CompressLength(s);
    CostOfRuns(rs);
  }

  lemma {:induction false} LastTwoOfAppended<K>(s: seq<Dated<K>>, r: Run<K>)
    requires r.from <= r.to
    ensures var t := s + ExpandRun(r);
            && t != [] && t[|t| - 1] == Dated(r.to, r.key)
            && t[..|t| - 1] == s + ExpandRun(Run(r.from, r.to - 1, r.key))
            && (|t| > 1 ==> t[|t| - 2] == if r.from < r.to then Dated(r.to - 1, r.key) else s[|s| - 1])
            && (r.from < r.to ==> |t| > 1) && (r.from == r.to ==> |t| == |s| + 1)
  {
    RunDays(r);
  }

  /** Appending a run that does not join the days before it appends one range. */
  lemma {:induction false} CompressAppend<K>(s: seq<Dated<K>>, r: Run<K>)
    requires r.from <= r.to
    requires s == [] || !Joins(s[|s| - 1], Dated(r.from, r.key))
    ensures Compress(s + ExpandRun(r)) == Compress(s) + [r]
    decreases r.to - r.from
  {
    LastTwoOfAppended(s, r);
    var shorter := Run(r.from, r.to - 1, r.key);
    if r.from < r.to {
      CompressAppend(s, shorter);
    } else {
      assert s + ExpandRun(shorter) == s;
    }
  }

  /** A run that adds to the cost does not join the days before it. */
  lemma {:induction false} CostlyRunDoesNotJoin<K>(s: seq<Dated<K>>, r: Run<K>)
    requires Cost(s + ExpandRun(r)) > Cost(s)
    ensures r.from <= r.to && (s == [] || !Joins(s[|s| - 1], Dated(r.from, r.key)))
  {
    assert s + [] == s;
    RunDays(r);
    CostOfRun(r);
    CostConcat(s, ExpandRun(r));
  }

  /** The greedy coding is the only shortest one. */
  lemma {:induction false} CompressUnique<K>(s: seq<Dated<K>>, rs: seq<Run<K>>)
    requires Expand(rs) == s && |rs| == Cost(s)
    ensures rs == Compress(s)
    decreases |rs|
  {
    if rs != [] {
      var init, r := rs[..|rs| - 1], rs[|rs| - 1];
      CostOfRuns(init);
      CostConcat(Expand(init), ExpandRun(r));
      CostOfRun(r);
      CostlyRunDoesNotJoin(Expand(init), r);
      CompressUnique(Expand(init), init);
      CompressAppend(Expand(init), r);
    }
  }

  /** A range of the coding covers a day exactly when the day is in the list with its key. */
  lemma {:induction false} ExpandMembers<K>(rs: seq<Run<K>>, day: int, key: K)
    ensures Dated(day, key) in Expand(rs) <==> exists r :: r in rs && r.key == key && r.from <= day <= r.to
  {
    if rs != [] {
      var init, last := rs[..|rs| - 1], rs[|rs| - 1];
      ExpandMembers(init, day, key);
      RunMembers(last, day, key);
      assert rs == init + [last];
    }
  }

  lemma {:induction false} RunMembers<K>(r: Run<K>, day: int, key: K)
    ensures Dated(day, key) in ExpandRun(r) <==> r.key == key && r.from <= day <= r.to
    decreases r.to - r.from
  {
    if r.from <= r.to { RunMembers(Run(r.from, r.to - 1, r.key), day, key); }
  }
}
