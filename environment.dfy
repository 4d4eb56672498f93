/** The environment check inside reread (internal/job/job.go): the old and the
    new entry lists are counted together in one table, and a restart is flagged
    when some entry does not occur exactly twice. */
module Environment {
  import opened Text

  /** The occurrence table the check builds, entry by entry. */
  function CountTable(s: seq<string>): map<string, int>
    decreases |s|
  {
    if |s| == 0 then map[]
    else
      var t := CountTable(s[..|s| - 1]);
      var e := s[|s| - 1];
      t[e := (if e in t then t[e] else 0) + 1]
  }

  /** The table holds every entry of s, and the row of each entry is its
      number of occurrences. */
  lemma {:induction false} CountTableCounts(s: seq<string>)
    ensures CountTable(s).Keys == set e | e in s
    ensures forall e :: e in CountTable(s) ==> CountTable(s)[e] == multiset(s)[e]
    decreases |s|
  {
    if |s| > 0 {
      var init, e := s[..|s| - 1], s[|s| - 1];
      CountTableCounts(init);
      assert s == init + [e];
      assert multiset(s) == multiset(init) + multiset{e};
      assert forall x :: x in s <==> x in init || x == e;
    }
  }

  /** The check flags a restart iff some entry of old ++ new is not counted twice. */
  predicate EnvChanged(old_: seq<string>, new_: seq<string>)
  {
    exists e :: e in old_ + new_ && multiset(old_ + new_)[e] != 2
  }

  /** Counting one more entry adds one to its row of the table. */
  lemma CountTableSnoc(s: seq<string>, e: string)
    ensures CountTable(s + [e]) == CountTable(s)[e := (if e in CountTable(s) then CountTable(s)[e] else 0) + 1]
  {
    assert (s + [e])[..|s|] == s;
  }

  /** A list without repeated entries holds each entry at most once. */
  lemma {:induction false} DistinctAtMostOnce(s: seq<string>, e: string)
    requires Distinct(s)
    ensures multiset(s)[e] <= 1
    ensures e in s <==> multiset(s)[e] == 1
  {
    if |s| > 0 {
      var r := s[1..];
      assert s == [s[0]] + r;
      assert Distinct(r) by {
        forall i, j | 0 <= i < j < |r| ensures r[i] != r[j] {
          assert r[i] == s[i + 1] && r[j] == s[j + 1];
        }
      }
      DistinctAtMostOnce(r, e);
      if e == s[0] {
        assert e !in r by {
          forall j | 0 <= j < |r| ensures r[j] != e {
            assert r[j] == s[j + 1];
          }
        }
      }
    }
  }

  /** For lists without repeated entries the check is exactly "the entries
      differ": it flags a restart iff the two lists are not permutations of
      each other. */
  lemma DistinctChangedIff(a: seq<string>, b: seq<string>)
    requires Distinct(a) && Distinct(b)
    ensures EnvChanged(a, b) <==> multiset(a) != multiset(b)
  {
    assert multiset(a + b) == multiset(a) + multiset(b);
    if multiset(a) == multiset(b) {
      forall e | e in a + b ensures multiset(a + b)[e] == 2 {
        DistinctAtMostOnce(a, e);
        DistinctAtMostOnce(b, e);
        assert e in a || e in b;
      }
    } else {
      var e :| multiset(a)[e] != multiset(b)[e];
      DistinctAtMostOnce(a, e);
      DistinctAtMostOnce(b, e);
      assert e in a + b;
    }
  }

  /** A reordering of a list without repeats is never seen as a change. */
  lemma PermutationUnchanged(a: seq<string>, b: seq<string>)
    requires Distinct(a) && multiset(a) == multiset(b)
    ensures !EnvChanged(a, b)
  {
    assert multiset(a + b) == multiset(a) + multiset(b);
    forall e | e in a + b ensures multiset(a + b)[e] == 2 {
      DistinctAtMostOnce(a, e);
      assert e in a || e in b;
      assert e in b ==> e in multiset(b);
    }
  }

  /** An entry added or removed is always seen as a change. */
  lemma AddedOrRemovedChanged(a: seq<string>, b: seq<string>, e: string)
    requires Distinct(a) && Distinct(b)
    requires (e in a) != (e in b)
    ensures EnvChanged(a, b)
  {
    assert multiset(a + b) == multiset(a) + multiset(b);
    DistinctAtMostOnce(a, e);
    DistinctAtMostOnce(b, e);
    assert e in a + b;
  }

  /** With repeated entries the count is not a multiset comparison: dropping a
      doubled entry leaves every count at 2, so no restart is flagged. */
  lemma DoubledEntryUnnoticed(e: string)
    ensures !EnvChanged([e, e], [])
    ensures multiset([e, e]) != multiset([])
  {
    assert [e, e] + [] == [e, e];
    assert multiset([e, e])[e] == 2;
  }
}
