// The e-mail history the browser shows: the server's most recent records
// merged with the copies kept in local storage, one per id, newest first,
// at most 50.

module ClientHistory {

  import opened JsArray
  import opened Records

  /** The history panel shows this many records at most. */
  const ShownCap: nat := 50

  /** `findIndex(t => t.id === id)`: the first position holding that id, or
      -1. */
  function FindIndexById(xs: seq<EmailRecord>, id: nat): (k: int)
    ensures -1 <= k < |xs|
    ensures 0 <= k ==> xs[k].id == id
    ensures forall j :: 0 <= j < |xs| && (k < 0 || j < k) ==> xs[j].id != id
  {
    if xs == [] then -1
    else if xs[0].id == id then 0
    else
      var k := FindIndexById(xs[1..], id);
      if k < 0 then -1 else k + 1
  }

  /** `r` is the first record of `xs` that has its id. */
  predicate FirstWithId(xs: seq<EmailRecord>, r: EmailRecord)
  {
    var k := FindIndexById(xs, r.id);
    0 <= k && xs[k] == r
  }

  predicate UniqueIds(xs: seq<EmailRecord>)
  {
    forall i, j :: 0 <= i < j < |xs| ==> xs[i].id != xs[j].id
  }

  // ---- de-duplication ----

  /** `filter((item, index, self) => index === self.findIndex(t => t.id ===
      item.id))`, from position `i` of `xs` on. */
  function FirstOccurrences(xs: seq<EmailRecord>, i: nat): seq<EmailRecord>
    requires i <= |xs|
    decreases |xs| - i
  {
    if i == |xs| then []
    else (if FindIndexById(xs, xs[i].id) == i then [xs[i]] else []) + FirstOccurrences(xs, i + 1)
  }

  function DedupById(xs: seq<EmailRecord>): seq<EmailRecord>
  {
    FirstOccurrences(xs, 0)
  }

  /** `e` is the record at the first position holding its id, and that
      position is `i` or later. */
  predicate FirstFrom(xs: seq<EmailRecord>, e: EmailRecord, i: nat)
  {
    var k := FindIndexById(xs, e.id);
    i <= k && xs[k] == e
  }

  /** What survives from position `i` on is records found first for their
      id at or after `i`, ... */
  lemma {:induction false} FirstOccurrencesSound(xs: seq<EmailRecord>, i: nat)
    requires i <= |xs|
    ensures forall e :: e in FirstOccurrences(xs, i) ==> FirstFrom(xs, e, i)
    decreases |xs| - i
  {
    if i < |xs| {
      FirstOccurrencesSound(xs, i + 1);
    }
  }

  /** ... each id once, ... */
  lemma {:induction false} FirstOccurrencesUnique(xs: seq<EmailRecord>, i: nat)
    requires i <= |xs|
    ensures UniqueIds(FirstOccurrences(xs, i))
    decreases |xs| - i
  {
    if i < |xs| {
      FirstOccurrencesUnique(xs, i + 1);
      FirstOccurrencesSound(xs, i + 1);
      var rest := FirstOccurrences(xs, i + 1);
      if FindIndexById(xs, xs[i].id) == i {
        var r := [xs[i]] + rest;
        forall a, b | 0 <= a < b < |r| ensures r[a].id != r[b].id {
          if a == 0 {
            assert r[b] in rest;
          }
        }
      }
    }
  }

  /** ... and every record at or after `i` that is first for its id. */
  lemma {:induction false} FirstOccurrencesComplete(xs: seq<EmailRecord>, i: nat)
    requires i <= |xs|
    ensures forall k :: i <= k < |xs| && FindIndexById(xs, xs[k].id) == k ==> xs[k] in FirstOccurrences(xs, i)
    decreases |xs| - i
  {
    if i < |xs| {
      FirstOccurrencesComplete(xs, i + 1);
    }
  }

  /** De-duplication keeps one record per id, the first one, and drops no
      id. */
  lemma DedupSpec(xs: seq<EmailRecord>)
    ensures var d := DedupById(xs);
            UniqueIds(d)
            && (forall e :: e in d ==> FirstWithId(xs, e))
            && (forall x :: x in xs ==> exists e :: e in d && e.id == x.id)
  {
    FirstOccurrencesSound(xs, 0);
    FirstOccurrencesUnique(xs, 0);
    FirstOccurrencesComplete(xs, 0);
    var d := DedupById(xs);
    forall x | x in xs ensures exists e :: e in d && e.id == x.id {
      var k := FindIndexById(xs, x.id);
      assert xs[k] in d;
    }
  }

  /** A record found in the front part is found first there. */
  lemma {:induction false} FindIndexInFront(front: seq<EmailRecord>, back: seq<EmailRecord>, id: nat)
    requires FindIndexById(front, id) >= 0
    ensures FindIndexById(front + back, id) == FindIndexById(front, id)
  {
    if front[0].id != id {
      FindIndexInFront(front[1..], back, id);
      assert (front + back)[1..] == front[1..] + back;
    }
  }

  // ---- newest first ----

  predicate NewestFirstBySentAt(xs: seq<EmailRecord>)
  {
    forall i, j :: 0 <= i < j < |xs| ==> xs[j].sentAt <= xs[i].sentAt
  }

  /** One step of the stable sort: `x` goes in front of the first record
      that is not newer than it. */
  function Insert(x: EmailRecord, s: seq<EmailRecord>): (r: seq<EmailRecord>)
    ensures |r| == |s| + 1
    ensures multiset(r) == multiset(s) + multiset{x}
  {
    if s == [] || s[0].sentAt <= x.sentAt then [x] + s
    else
      assert s == [s[0]] + s[1..];
      [s[0]] + Insert(x, s[1..])
  }

  /** `sort((a, b) => new Date(b.sentAt) - new Date(a.sentAt))`. */
  function SortNewestFirst(xs: seq<EmailRecord>): (r: seq<EmailRecord>)
    ensures |r| == |xs|
    ensures multiset(r) == multiset(xs)
  {
    if xs == [] then []
    else
      assert xs == [xs[0]] + xs[1..];
      Insert(xs[0], SortNewestFirst(xs[1..]))
  }

  lemma {:induction false} InsertSorted(x: EmailRecord, s: seq<EmailRecord>)
    requires NewestFirstBySentAt(s)
    ensures NewestFirstBySentAt(Insert(x, s))
  {
    if s != [] && x.sentAt < s[0].sentAt {
      InsertSorted(x, s[1..]);
      var t := Insert(x, s[1..]);
      assert forall e :: e in t ==> e == x || e in s[1..] by {
        forall e | e in t ensures e == x || e in s[1..] {
          assert e in multiset(t);
        }
      }
      var r := [s[0]] + t;
      forall i, j | 0 <= i < j < |r| ensures r[j].sentAt <= r[i].sentAt {
        if i == 0 {
          assert r[j] in t;
        }
      }
    }
  }

  /** The sort orders newest first and loses and adds nothing. */
  lemma {:induction false} SortSpec(xs: seq<EmailRecord>)
    ensures NewestFirstBySentAt(SortNewestFirst(xs))
    ensures multiset(SortNewestFirst(xs)) == multiset(xs)
  {
    if xs != [] {
      SortSpec(xs[1..]);
      InsertSorted(xs[0], SortNewestFirst(xs[1..]));
    }
  }

  /** Reordering keeps ids unique. */
  lemma {:induction false} SortKeepsUniqueIds(xs: seq<EmailRecord>)
    requires UniqueIds(xs)
    ensures UniqueIds(SortNewestFirst(xs))
  {
    if xs != [] {
      var rest := xs[1..];
      SortKeepsUniqueIds(rest);
      forall e | e in SortNewestFirst(rest) ensures e.id != xs[0].id {
        assert e in multiset(SortNewestFirst(rest));
        var m :| 0 <= m < |rest| && rest[m] == e;
        assert xs[m + 1] == e;
      }
      InsertUnique(xs[0], SortNewestFirst(rest));
    }
  }

  lemma {:induction false} InsertUnique(x: EmailRecord, s: seq<EmailRecord>)
    requires UniqueIds(s) && forall e :: e in s ==> e.id != x.id
    ensures UniqueIds(Insert(x, s))
  {
    if s != [] && x.sentAt < s[0].sentAt {
      InsertUnique(x, s[1..]);
      var t := Insert(x, s[1..]);
      var r := [s[0]] + t;
      forall i, j | 0 <= i < j < |r| ensures r[i].id != r[j].id {
        if i == 0 {
          assert r[j] in multiset(t);
          if r[j] != x {
            var m :| 0 <= m < |s[1..]| && s[1..][m] == r[j];
            assert s[m + 1] == r[j];
          }
        }
      }
    }
  }

  // ---- the merge ----

  /** `[...server, ...local]`, de-duplicated by id, sorted newest first and
      cut to 50. */
  function MergeHistory(server: seq<EmailRecord>, local: seq<EmailRecord>): seq<EmailRecord>
  {
    Take(SortNewestFirst(DedupById(server + local)), ShownCap)
  }

  /** The merged history holds at most 50 records, one per id, newest
      first, ... */
  lemma MergeShape(server: seq<EmailRecord>, local: seq<EmailRecord>)
    ensures var m := MergeHistory(server, local);
            |m| <= ShownCap && UniqueIds(m) && NewestFirstBySentAt(m)
            && forall r :: r in m ==> r in DedupById(server + local)
  {
    var d := DedupById(server + local);
    var sorted := SortNewestFirst(d);
    var m := MergeHistory(server, local);
    DedupSpec(server + local);
    SortSpec(d);
    SortKeepsUniqueIds(d);
    forall r | r in m ensures r in d {
      assert r in multiset(sorted);
    }
  }

  /** ... each from the server or from local storage, and a record the
      server knows is shown in the server's copy. */
  lemma MergeSources(server: seq<EmailRecord>, local: seq<EmailRecord>)
    ensures var m := MergeHistory(server, local);
            (forall r :: r in m ==> r in server || r in local)
            && (forall r :: r in m && FindIndexById(server, r.id) >= 0 ==>
                  r == server[FindIndexById(server, r.id)])
  {
    var all := server + local;
    var m := MergeHistory(server, local);
    MergeShape(server, local);
    DedupSpec(all);
    forall r | r in m ensures r in server || r in local {
      assert all[FindIndexById(all, r.id)] == r;
    }
    forall r | r in m && FindIndexById(server, r.id) >= 0
      ensures r == server[FindIndexById(server, r.id)]
    {
      FindIndexInFront(server, local, r.id);
    }
  }

  /** Whatever the cut drops is no newer than anything shown, ... */
  lemma MergeKeepsNewest(server: seq<EmailRecord>, local: seq<EmailRecord>)
    ensures var m := MergeHistory(server, local);
            forall e, r :: e in DedupById(server + local) && e !in m && r in m ==> e.sentAt <= r.sentAt
  {
    var d := DedupById(server + local);
    var sorted := SortNewestFirst(d);
    var m := MergeHistory(server, local);
    SortSpec(d);
    forall e, r | e in d && e !in m && r in m ensures e.sentAt <= r.sentAt {
      assert e in multiset(sorted);
      var a :| 0 <= a < |sorted| && sorted[a] == e;
      var b :| 0 <= b < |m| && m[b] == r;
      assert sorted[b] == r;
    }
  }

  /** ... and when at most 50 ids are known every one of them is shown. */
  lemma MergeShowsAllWhenFew(server: seq<EmailRecord>, local: seq<EmailRecord>)
    requires |DedupById(server + local)| <= ShownCap
    ensures forall x :: x in server + local ==> exists r :: r in MergeHistory(server, local) && r.id == x.id
  {
    var d := DedupById(server + local);
    var m := MergeHistory(server, local);
    DedupSpec(server + local);
    SortSpec(d);
    assert m == SortNewestFirst(d);
    forall x | x in server + local ensures exists r :: r in m && r.id == x.id {
      var e :| e in d && e.id == x.id;
      assert e in multiset(d);
      assert e in multiset(m);
    }
  }

  /** `loadEmailHistory`: the merge when the server answered, the local
      copies alone when it did not. */
  function ShownHistory(server: Option<seq<EmailRecord>>, local: seq<EmailRecord>): seq<EmailRecord>
  {
    match server
    case Some(h) => MergeHistory(h, local)
    case None => local
  }
}
