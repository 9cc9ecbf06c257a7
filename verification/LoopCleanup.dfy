/** Bounded deletion of finished loop runs and old releases (loop_cleanup.py). */
module LoopCleanup {
  import opened Basics
  import opened Ordering

  /**
    One directory entry.  `eligible`: a marked run, or a valid release.  `shielded`: an active or
    protected run, or a protected or current release.  A None `modified` is a stat that fails.
   */
  datatype Entry = Entry(eligible: bool, shielded: bool, modified: Option<real>, size: nat)

  type Directory = map<string, Entry>

  datatype Counters = Counters(evaluated: nat, removed: nat, preserved: nat, errors: nat, reclaimed: nat)

  /** A delete may fail before the rename, or leave the renamed directory behind. */
  datatype Deletion = Deleted | Stays | LeftAsTrash

  const SECONDS_PER_DAY := 86400

  // ---------------------------------------------------------------- what should go

  predicate Candidate(d: Directory, name: string)
  {
    name in d && d[name].eligible && !d[name].shielded && d[name].modified.Some?
  }

  /** `(mtime, path)` order, newest first. */
  predicate Newer(d: Directory, a: string, b: string)
    requires Candidate(d, a) && Candidate(d, b)
  {
    d[a].modified.value > d[b].modified.value || (d[a].modified.value == d[b].modified.value && Less(b, a))
  }

  ghost function NewerOnes(d: Directory, name: string): set<string>
    requires Candidate(d, name)
  {
    set n | n in d && Candidate(d, n) && Newer(d, n, name)
  }

  /** Retention: how many of the newest to keep, and the moment before which even those go. */
  datatype Retention = Retention(keep: int, oldest: Option<real>)

  predicate TooOld(d: Directory, name: string, r: Retention)
    requires Candidate(d, name)
  {
    r.oldest.Some? && d[name].modified.value < r.oldest.value
  }

  /** A candidate goes when enough newer ones exist, or when it is too old. */
  ghost predicate Condemned(d: Directory, name: string, r: Retention)
  {
    Candidate(d, name) && (|NewerOnes(d, name)| >= Max(0, r.keep) || TooOld(d, name, r))
  }

  // ---------------------------------------------------------------- sorting

  ghost predicate SortedNewest(d: Directory, s: seq<string>)
  {
    && (forall i :: 0 <= i < |s| ==> Candidate(d, s[i]))
    && (forall i, j :: 0 <= i < j < |s| ==> Newer(d, s[i], s[j]))
  }

  lemma NewerIsOrder(d: Directory, a: string, b: string, c: string)
    requires Candidate(d, a) && Candidate(d, b) && Candidate(d, c)
    ensures a == b || Newer(d, a, b) || Newer(d, b, a)
    ensures !(Newer(d, a, b) && Newer(d, b, a)) && !Newer(d, a, a)
    ensures Newer(d, a, b) && Newer(d, b, c) ==> Newer(d, a, c)
  {
    LessTotal(a, b);
    if Less(c, b) && Less(b, a) { LessTransitive(c, b, a); }
  }

  lemma InsertedInOrder(d: Directory, s: seq<string>, i: nat, name: string)
    requires SortedNewest(d, s) && Candidate(d, name) && i <= |s|
    requires forall j :: 0 <= j < i ==> Newer(d, s[j], name)
    requires i < |s| ==> Newer(d, name, s[i])
    ensures SortedNewest(d, s[..i] + [name] + s[i..])
  {
    forall j | i <= j < |s| ensures Newer(d, name, s[j]) {
      NewerIsOrder(d, name, s[i], s[j]);
    }
  }

  method InsertNewest(d: Directory, name: string, s: seq<string>) returns (r: seq<string>)
    requires SortedNewest(d, s) && Candidate(d, name) && name !in s
    ensures SortedNewest(d, r) && forall n :: n in r <==> n in s || n == name
    ensures |r| == |s| + 1
  {
    var i := 0;
    while i < |s| && Newer(d, s[i], name)
      invariant 0 <= i <= |s|
      invariant forall j :: 0 <= j < i ==> Newer(d, s[j], name)
    {
      i := i + 1;
    }
    if i < |s| {
      assert s[i] in s;
      NewerIsOrder(d, name, s[i], name);
    }
    InsertedInOrder(d, s, i, name);
    r := s[..i] + [name] + s[i..];
    assert s == s[..i] + s[i..];
  }

  /** In newest-first order, the newer ones of an element are exactly those before it. */
  lemma RankIsIndex(d: Directory, s: seq<string>, i: nat)
    requires SortedNewest(d, s) && (forall n :: Candidate(d, n) ==> n in s) && i < |s|
    ensures |NewerOnes(d, s[i])| == i
  {
    var front := set j | 0 <= j < i :: s[j];
    forall n | n in NewerOnes(d, s[i]) ensures n in front {
      var j :| 0 <= j < |s| && s[j] == n;
      NewerIsOrder(d, s[i], s[j], s[i]);
    }
    assert NewerOnes(d, s[i]) == front;
    assert s[..i][..i] == s[..i];
    SizeOfFront(d, s, i);
  }

  lemma {:induction false} SizeOfFront(d: Directory, s: seq<string>, i: nat)
    requires SortedNewest(d, s) && i <= |s|
    ensures |set j | 0 <= j < i :: s[j]| == i
  {
    if i > 0 {
      SizeOfFront(d, s, i - 1);
      var shorter := set j | 0 <= j < i - 1 :: s[j];
      assert s[i - 1] !in shorter by {
        forall j | 0 <= j < i - 1 ensures s[j] != s[i - 1] { NewerIsOrder(d, s[j], s[i - 1], s[j]); }
      }
      assert (set j | 0 <= j < i :: s[j]) == shorter + {s[i - 1]};
    }
  }

  /** All candidates, each at the index that is the number of newer ones. */
  ghost predicate Ranked(d: Directory, s: seq<string>)
  {
    && (forall n :: n in s <==> Candidate(d, n))
    && (forall i :: 0 <= i < |s| ==> Candidate(d, s[i]) && |NewerOnes(d, s[i])| == i)
  }

  lemma SortedIsRanked(d: Directory, s: seq<string>)
    requires SortedNewest(d, s) && forall n :: n in s <==> Candidate(d, n)
    ensures Ranked(d, s)
  {
    forall i | 0 <= i < |s| ensures |NewerOnes(d, s[i])| == i { RankIsIndex(d, s, i); }
  }

  // ---------------------------------------------------------------- the newest survive

  lemma {:induction false} DistinctFront(s: seq<string>, k: nat)
    requires k <= |s| && forall i, j :: 0 <= i < j < |s| ==> s[i] != s[j]
    ensures |set j | 0 <= j < k :: s[j]| == k
  {
    if k > 0 {
      DistinctFront(s, k - 1);
      assert (set j | 0 <= j < k :: s[j]) == (set j | 0 <= j < k - 1 :: s[j]) + {s[k - 1]};
    }
  }

  /** Fewer are newer than a newer one. */
  lemma NewerHasFewer(d: Directory, a: string, b: string)
    requires Candidate(d, a) && Candidate(d, b) && Newer(d, a, b)
    ensures |NewerOnes(d, a)| < |NewerOnes(d, b)|
  {
    forall n | n in NewerOnes(d, a) + {a} ensures n in NewerOnes(d, b) { NewerIsOrder(d, n, a, b); }
    NewerIsOrder(d, a, a, a);
    SubsetSize(NewerOnes(d, a) + {a}, NewerOnes(d, b));
  }

  lemma {:induction false} SubsetSize(a: set<string>, b: set<string>)
    requires a <= b
    ensures |a| <= |b|
    decreases a
  {
    if a != {} {
      var x :| x in a;
      SubsetSize(a - {x}, b - {x});
    }
  }

  /** Whatever goes is older than what stays, unless it is past the age limit; on equal times the path decides. */
  lemma KeptAreNewer(d: Directory, a: string, b: string, r: Retention)
    requires a in d && d[a].eligible && !d[a].shielded && d[a].modified.Some? && !Condemned(d, a, r)
    requires Condemned(d, b, r) && (r.oldest.Some? ==> r.oldest.value <= d[b].modified.value)
    ensures d[b].modified.value <= d[a].modified.value
    ensures d[b].modified == d[a].modified ==> Less(b, a)
  {
    NewerIsOrder(d, a, b, a);
    if Newer(d, b, a) { NewerHasFewer(d, b, a); }
  }

  /** The candidates within the age limit come first in newest-first order. */
  lemma RecentComeFirst(d: Directory, s: seq<string>, r: Retention) returns (q: nat)
    requires Ranked(d, s)
    ensures q <= |s| && forall i :: 0 <= i < |s| ==> (TooOld(d, s[i], r) <==> q <= i)
  {
    forall i, j | 0 <= i < j < |s| && TooOld(d, s[i], r) ensures TooOld(d, s[j], r) {
      NewerIsOrder(d, s[i], s[j], s[i]);
      if Newer(d, s[j], s[i]) { NewerHasFewer(d, s[j], s[i]); }
    }
    q := 0;
    while q < |s| && !TooOld(d, s[q], r)
      invariant q <= |s| && forall i :: 0 <= i < q ==> !TooOld(d, s[i], r)
    {
      q := q + 1;
    }
  }

  /** As many candidates survive as there are within the age limit, up to the number to keep. */
  lemma HowManySurvive(d: Directory, s: seq<string>, r: Retention)
    requires Ranked(d, s)
    ensures |set n | n in d && d[n].eligible && !d[n].shielded && d[n].modified.Some? && !Condemned(d, n, r)|
         == Min(Max(0, r.keep), |set n | n in d && d[n].eligible && !d[n].shielded && d[n].modified.Some?
                                         && (r.oldest.Some? ==> r.oldest.value <= d[n].modified.value)|)
  {
    var q := RecentComeFirst(d, s, r);
    forall i, j | 0 <= i < j < |s| ensures s[i] != s[j] { }
    var kept := Min(Max(0, r.keep), q);
    DistinctFront(s, q);
    DistinctFront(s, kept);
    var recent := set n | n in d && d[n].eligible && !d[n].shielded && d[n].modified.Some?
                          && (r.oldest.Some? ==> r.oldest.value <= d[n].modified.value);
    var stay := set n | n in d && d[n].eligible && !d[n].shielded && d[n].modified.Some? && !Condemned(d, n, r);
    assert recent == set j | 0 <= j < q :: s[j] by {
      forall n | n in recent ensures n in set j | 0 <= j < q :: s[j] {
        assert Candidate(d, n) && n in s;
        var j :| 0 <= j < |s| && s[j] == n;
      }
    }
    assert stay == set j | 0 <= j < kept :: s[j] by {
      forall n | n in stay ensures n in set j | 0 <= j < kept :: s[j] {
        assert Candidate(d, n) && n in s;
        var j :| 0 <= j < |s| && s[j] == n;
      }
    }
  }

  // ---------------------------------------------------------------- the collectors

  ghost predicate Lists(listing: seq<string>, d: Directory)
  {
    && (forall n :: n in listing <==> n in d)
    && (forall i, j :: 0 <= i < j < |listing| ==> listing[i] != listing[j])
  }

  /** What a pass leaves: the condemned go unless their delete fails before the rename. */
  ghost predicate SweptTo(d: Directory, d': Directory, r: Retention, deletes: string -> Deletion)
  {
    forall n ::
      && (n in d' <==> n in d && !(Condemned(d, n, r) && deletes(n) != Stays))
      && (n in d' ==> d'[n] == d[n])
  }

  ghost function EligibleNames(d: Directory): set<string> { set n | n in d && d[n].eligible }

  /** The names a pass really deletes. */
  ghost function Removed(d: Directory, r: Retention, deletes: string -> Deletion): set<string>
  {
    set n | n in d && Condemned(d, n, r) && deletes(n).Deleted?
  }

  /** The entries whose age cannot be read. */
  ghost function Unreadable(d: Directory): set<string>
  {
    set n | n in d && d[n].eligible && !d[n].shielded && d[n].modified.None?
  }

  /** The condemned names whose delete fails, before or after the rename. */
  ghost function Undeleted(d: Directory, r: Retention, deletes: string -> Deletion): set<string>
  {
    set n | n in d && Condemned(d, n, r) && !deletes(n).Deleted?
  }

  lemma SuffixStep(s: seq<string>, i: nat)
    requires i < |s|
    ensures s[i..] == [s[i]] + s[i + 1..]
  {
  }

  function SizeOf(d: Directory, names: seq<string>): nat
    requires forall n :: n in names ==> n in d
  {
    if names == [] then 0 else SizeOf(d, names[..|names| - 1]) + d[names[|names| - 1]].size
  }

  lemma SizeByEntry(d: Directory, names: seq<string>, name: string)
    requires name in d && forall n :: n in names ==> n in d
    ensures SizeOf(d, []) == 0 && SizeOf(d, names + [name]) == SizeOf(d, names) + d[name].size
  {
    assert (names + [name])[..|names|] == names;
  }

  /** The names deleted so far, each once, and the bytes that came back. */
  ghost predicate Tallied(d: Directory, deleted: seq<string>, gone: set<string>, removed: nat, reclaimed: nat)
  {
    && (forall n :: n in deleted <==> n in gone)
    && (forall n :: n in gone ==> n in d)
    && |deleted| == |gone| == removed
    && (forall i, j :: 0 <= i < j < |deleted| ==> deleted[i] != deleted[j])
    && reclaimed == SizeOf(d, deleted)
  }

  /** The directory once the names in `s` have been dealt with. */
  ghost function Left(d: Directory, s: seq<string>, r: Retention, deletes: string -> Deletion): Directory
  {
    map n | n in d && !(n in s && Condemned(d, n, r) && deletes(n) != Stays) :: d[n]
  }

  ghost function Gone(d: Directory, s: seq<string>, r: Retention, deletes: string -> Deletion): set<string>
  {
    set n | n in s && Condemned(d, n, r) && deletes(n).Deleted?
  }

  ghost function Failed(d: Directory, s: seq<string>, r: Retention, deletes: string -> Deletion): set<string>
  {
    set n | n in s && Condemned(d, n, r) && !deletes(n).Deleted?
  }

  lemma OneMoreFailed(d: Directory, name: string, rest: seq<string>, r: Retention, deletes: string -> Deletion)
    requires name !in rest && Condemned(d, name, r)
    ensures |Failed(d, [name] + rest, r, deletes)| ==
      |Failed(d, rest, r, deletes)| + (if deletes(name).Deleted? then 0 else 1)
  {
    var before, after := Failed(d, rest, r, deletes), Failed(d, [name] + rest, r, deletes);
    assert name !in before;
    assert after == if deletes(name).Deleted? then before else before + {name};
  }

  /** Dealing with one more name. */
  lemma OneMore(d: Directory, name: string, rest: seq<string>, r: Retention, deletes: string -> Deletion)
    requires name !in rest && name in d
    ensures name in Left(d, rest, r, deletes) && Left(d, rest, r, deletes)[name] == d[name]
    ensures Left(d, [name] + rest, r, deletes) ==
      (if Condemned(d, name, r) && deletes(name) != Stays then Left(d, rest, r, deletes) - {name}
       else Left(d, rest, r, deletes))
    ensures |Gone(d, [name] + rest, r, deletes)| ==
      |Gone(d, rest, r, deletes)| + (if Condemned(d, name, r) && deletes(name).Deleted? then 1 else 0)
  {
    OneMoreGone(d, name, rest, r, deletes);
  }

  lemma OneMoreGone(d: Directory, name: string, rest: seq<string>, r: Retention, deletes: string -> Deletion)
    requires name !in rest
    ensures |Gone(d, [name] + rest, r, deletes)| ==
      |Gone(d, rest, r, deletes)| + (if Condemned(d, name, r) && deletes(name).Deleted? then 1 else 0)
  {
    var before, after := Gone(d, rest, r, deletes), Gone(d, [name] + rest, r, deletes);
    assert name !in before;
    if Condemned(d, name, r) && deletes(name).Deleted? {
      assert forall n :: n in after <==> n in before || n == name;
      assert after == before + {name};
    } else {
      assert after == before;
    }
  }

  /** What deleting one more condemned name does to the tally. */
  lemma TallyOne(d: Directory, name: string, rest: seq<string>, r: Retention, deletes: string -> Deletion,
                 deleted: seq<string>, removed: nat, reclaimed: nat)
    requires name !in rest && Condemned(d, name, r) &&
      Tallied(d, deleted, Gone(d, rest, r, deletes), removed, reclaimed)
    ensures var after := Gone(d, [name] + rest, r, deletes);
      if deletes(name).Deleted? then Tallied(d, deleted + [name], after, removed + 1, reclaimed + d[name].size)
      else Tallied(d, deleted, after, removed, reclaimed)
  {
    OneMoreGone(d, name, rest, r, deletes);
    assert (deleted + [name])[..|deleted|] == deleted;
    assert name !in Gone(d, rest, r, deletes) && name !in deleted;
  }

  lemma Spared(d: Directory, name: string, rest: seq<string>, r: Retention, deletes: string -> Deletion)
    requires !Condemned(d, name, r)
    ensures Left(d, [name] + rest, r, deletes) == Left(d, rest, r, deletes)
    ensures Gone(d, [name] + rest, r, deletes) == Gone(d, rest, r, deletes)
    ensures Failed(d, [name] + rest, r, deletes) == Failed(d, rest, r, deletes)
  {
  }

  /** Once every condemned name has been dealt with, the pass is over. */
  lemma AllDealtWith(d: Directory, s: seq<string>, r: Retention, deletes: string -> Deletion)
    requires forall n :: Condemned(d, n, r) ==> n in s
    ensures SweptTo(d, Left(d, s, r, deletes), r, deletes) && Gone(d, s, r, deletes) == Removed(d, r, deletes)
    ensures Failed(d, s, r, deletes) == Undeleted(d, r, deletes)
  {
  }

  ghost predicate NoFailures(d: Directory, deletes: string -> Deletion)
  {
    (forall n :: deletes(n).Deleted?) && (forall n :: n in d ==> d[n].modified.Some?)
  }

  lemma NoFailuresNoErrors(d: Directory, r: Retention, deletes: string -> Deletion)
    requires NoFailures(d, deletes)
    ensures Unreadable(d) == {} && Undeleted(d, r, deletes) == {}
  {
  }

  /** A pass without failing deletes, in the entries' own fields. */
  ghost predicate KeepsTheNewest(d: Directory, d': Directory, keep: int, oldest: Option<real>)
  {
    // only candidates go, and everything else stays as it was
    && (forall n :: n in d' ==> n in d && d'[n] == d[n])
    && (forall n :: n in d && n !in d' ==> d[n].eligible && !d[n].shielded && d[n].modified.Some?)
    // what goes is past the age limit, or older than every candidate that stays
    && (forall a, b :: a in d' && d[a].eligible && !d[a].shielded && d[a].modified.Some? && b in d && b !in d' ==>
         || (oldest.Some? && d[b].modified.value < oldest.value)
         || d[b].modified.value < d[a].modified.value
         || (d[b].modified == d[a].modified && Less(b, a)))
    // none past the age limit stays, and of the others as many as should
    && (forall a :: a in d' && d[a].eligible && !d[a].shielded && d[a].modified.Some? && oldest.Some? ==>
         oldest.value <= d[a].modified.value)
    && |set a | a in d' && d[a].eligible && !d[a].shielded && d[a].modified.Some?|
       == Min(Max(0, keep), |set n | n in d && d[n].eligible && !d[n].shielded && d[n].modified.Some?
                                    && (oldest.Some? ==> oldest.value <= d[n].modified.value)|)
  }

  lemma PassKeepsTheNewest(d: Directory, d': Directory, ordered: seq<string>, r: Retention, deletes: string -> Deletion)
    requires SweptTo(d, d', r, deletes) && (forall n :: deletes(n).Deleted?) && Ranked(d, ordered)
    ensures KeepsTheNewest(d, d', r.keep, r.oldest)
  {
    assert forall n :: n in d' <==> n in d && !Condemned(d, n, r);
    forall a, b | a in d' && Candidate(d, a) && b in d && b !in d'
      ensures || (r.oldest.Some? && d[b].modified.value < r.oldest.value)
              || d[b].modified.value < d[a].modified.value
              || (d[b].modified == d[a].modified && Less(b, a))
    {
      if r.oldest.Some? ==> r.oldest.value <= d[b].modified.value { KeptAreNewer(d, a, b, r); }
    }
    HowManySurvive(d, ordered, r);
    assert (set a | a in d' && d[a].eligible && !d[a].shielded && d[a].modified.Some?)
        == (set n | n in d && d[n].eligible && !d[n].shielded && d[n].modified.Some? && !Condemned(d, n, r));
  }

  class Store {
    var entries: Directory

    constructor (d: Directory) ensures entries == d { entries := d; }

    /** The scan: count, preserve the shielded, and order the candidates newest first. */
    method Scan(listing: seq<string>) returns (ordered: seq<string>, c: Counters)
      requires Lists(listing, entries)
      ensures Ranked(entries, ordered)
      ensures c.evaluated == c.preserved + c.errors + |ordered| && c.removed == 0 && c.reclaimed == 0
      ensures c.evaluated == |EligibleNames(entries)|
      ensures c.errors == |Unreadable(entries)|
    {
      ordered, c := [], Counters(0, 0, 0, 0, 0);
      ghost var seen: set<string>, unread: set<string> := {}, {};
      for i := 0 to |listing|
        invariant SortedNewest(entries, ordered)
        invariant forall n :: n in ordered <==> n in listing[..i] && Candidate(entries, n)
        invariant c.evaluated == c.preserved + c.errors + |ordered| && c.removed == 0 && c.reclaimed == 0
        invariant c.evaluated == |seen| && forall n :: n in seen <==> n in listing[..i] && entries[n].eligible
        invariant c.errors == |unread| && forall n :: n in unread <==> n in listing[..i] && n in Unreadable(entries)
      {
        var name := listing[i];
        assert listing[..i + 1] == listing[..i] + [name];
        assert name !in listing[..i] && name in listing;
        var entry := entries[name];
        if entry.eligible {
          c := c.(evaluated := c.evaluated + 1);
          seen := seen + {name};
          if entry.shielded {
            c := c.(preserved := c.preserved + 1);
          } else if entry.modified.Some? {
            ordered := InsertNewest(entries, name, ordered);
          } else {
            c := c.(errors := c.errors + 1);
            unread := unread + {name};
          }
        }
      }
      assert listing[..|listing|] == listing;
      assert seen == EligibleNames(entries) && unread == Unreadable(entries);
      SortedIsRanked(entries, ordered);
    }

    /** One delete and its bookkeeping. */
    method Delete(name: string, deletion: Deletion, c: Counters) returns (c': Counters)
      requires name in entries
      modifies this
      ensures entries == if deletion.Stays? then old(entries) else old(entries) - {name}
      ensures c' == if deletion.Deleted?
                    then c.(removed := c.removed + 1, reclaimed := c.reclaimed + old(entries)[name].size)
                    else c.(errors := c.errors + 1)
    {
      if deletion.Stays? {
        return c.(errors := c.errors + 1);
      }
      var size := entries[name].size;
      entries := entries - {name};
      if deletion.LeftAsTrash? {
        return c.(errors := c.errors + 1);
      }
      return c.(removed := c.removed + 1, reclaimed := c.reclaimed + size);
    }

    /** A condemned candidate is deleted and counted. */
    method Collect(name: string, deletes: string -> Deletion, c: Counters,
                   ghost d: Directory, ghost rest: seq<string>, ghost r: Retention, ghost deleted: seq<string>,
                   ghost unread: nat)
      returns (c': Counters, ghost deleted': seq<string>)
      requires name !in rest && Condemned(d, name, r)
      requires entries == Left(d, rest, r, deletes) &&
        Tallied(d, deleted, Gone(d, rest, r, deletes), c.removed, c.reclaimed)
      requires c.errors == unread + |Failed(d, rest, r, deletes)|
      modifies this
      ensures entries == Left(d, [name] + rest, r, deletes)
      ensures Tallied(d, deleted', Gone(d, [name] + rest, r, deletes), c'.removed, c'.reclaimed)
      ensures c'.evaluated == c.evaluated && c'.preserved == c.preserved &&
        c'.removed + c'.errors == c.removed + c.errors + 1
      ensures c'.errors == unread + |Failed(d, [name] + rest, r, deletes)|
    {
      OneMoreFailed(d, name, rest, r, deletes);
      OneMore(d, name, rest, r, deletes);
      TallyOne(d, name, rest, r, deletes, deleted, c.removed, c.reclaimed);
      deleted' := if deletes(name).Deleted? then deleted + [name] else deleted;
      c' := Delete(name, deletes(name), c);
    }

    /** cleanup_run_root: the newest max_runs that are also within max_age survive. */
    method CleanupRuns(listing: seq<string>, maxRuns: int, maxAgeDays: int, now: real, deletes: string -> Deletion)
      returns (c: Counters, ghost r: Retention, ghost deleted: seq<string>)
      requires Lists(listing, entries)
      modifies this
      ensures r == Retention(maxRuns, Some(now - (Max(0, maxAgeDays) * SECONDS_PER_DAY) as real))
      ensures c.evaluated == c.preserved + c.removed + c.errors
      ensures c.evaluated == |set n | n in old(entries) && old(entries)[n].eligible|
      ensures Tallied(old(entries), deleted, Removed(old(entries), r, deletes), c.removed, c.reclaimed)
      // each entry that was deleted is gone and counted once, with its size
      ensures c.removed == |deleted| && c.reclaimed == SizeOf(old(entries), deleted)
      ensures forall i, j :: 0 <= i < j < |deleted| ==> deleted[i] != deleted[j]
      ensures forall n :: n in deleted <==> n in old(entries) && n !in entries && deletes(n).Deleted?
      ensures SweptTo(old(entries), entries, r, deletes)
      ensures c.errors == |Unreadable(old(entries))| + |Undeleted(old(entries), r, deletes)|
      ensures NoFailures(old(entries), deletes) ==> c.errors == 0
      // when no delete fails, the newest runs within the age limit stay, max_runs of them if there are as many
      ensures (forall n :: deletes(n).Deleted?) ==>
        KeepsTheNewest(old(entries), entries, maxRuns, Some(now - (Max(0, maxAgeDays) * 86400) as real))
    {
      ghost var d := entries;
      var maxAge := (Max(0, maxAgeDays) * SECONDS_PER_DAY) as real;
      r := Retention(maxRuns, Some(now - maxAge));
      var ordered: seq<string>;
      ordered, c := Scan(listing);
      var i := |ordered|;
      ghost var rest: seq<string> := [];
      deleted := [];
      while i > 0
        invariant 0 <= i <= |ordered| && rest == ordered[i..]
        invariant c.evaluated == c.preserved + c.removed + c.errors + i == |EligibleNames(d)|
        invariant Tallied(d, deleted, Gone(d, rest, r, deletes), c.removed, c.reclaimed)
        invariant entries == Left(d, rest, r, deletes)
        invariant c.errors == |Unreadable(d)| + |Failed(d, rest, r, deletes)|
      {
        i := i - 1;
        var name := ordered[i];
        SuffixStep(ordered, i);
        CondemnedRun(d, ordered, i, r, now, maxAge);
        if i < Max(0, maxRuns) && now - entries[name].modified.value <= maxAge {
          Spared(d, name, rest, r, deletes);
          c := c.(preserved := c.preserved + 1);
        } else {
          c, deleted := Collect(name, deletes, c, d, rest, r, deleted, |Unreadable(d)|);
        }
        rest := [name] + rest;
      }
      assert rest == ordered;
      AllDealtWith(d, ordered, r, deletes);
      if NoFailures(d, deletes) { NoFailuresNoErrors(d, r, deletes); }
      if forall n :: deletes(n).Deleted? { PassKeepsTheNewest(d, entries, ordered, r, deletes); }
    }

    /** The loop over the releases beyond the newest, oldest first. */
    method SweepTail(
        ordered: seq<string>, kept: nat, deletes: string -> Deletion, c: Counters, ghost d: Directory,
        ghost r: Retention)
      returns (c': Counters, ghost deleted: seq<string>)
      requires kept <= |ordered| && Ranked(d, ordered) && entries == d && c.removed == c.reclaimed == 0
      requires kept < |ordered| ==> Max(0, r.keep) <= kept
      modifies this
      ensures c'.evaluated == c.evaluated && c'.preserved == c.preserved
      ensures c'.removed + c'.errors == c.errors + |ordered| - kept
      ensures Tallied(d, deleted, Gone(d, ordered[kept..], r, deletes), c'.removed, c'.reclaimed)
      ensures entries == Left(d, ordered[kept..], r, deletes)
      ensures c'.errors == c.errors + |Failed(d, ordered[kept..], r, deletes)|
    {
      c', deleted := c, [];
      var i := |ordered|;
      ghost var rest: seq<string> := [];
      while i > kept
        invariant kept <= i <= |ordered| && rest == ordered[i..]
        invariant c'.evaluated == c.evaluated && c'.preserved == c.preserved
        invariant c'.removed + c'.errors + i == c.errors + |ordered|
        invariant Tallied(d, deleted, Gone(d, rest, r, deletes), c'.removed, c'.reclaimed)
        invariant entries == Left(d, rest, r, deletes)
        invariant c'.errors == c.errors + |Failed(d, rest, r, deletes)|
      {
        i := i - 1;
        var name := ordered[i];
        SuffixStep(ordered, i);
        CondemnedRelease(d, ordered, i, r);
        c', deleted := Collect(name, deletes, c', d, rest, r, deleted, c.errors);
        rest := [name] + rest;
      }
    }

    /** gc_releases: the newest `keep` survive whatever their age. */
    method GcReleases(listing: seq<string>, keep: int, deletes: string -> Deletion)
      returns (c: Counters, ghost r: Retention, ghost deleted: seq<string>)
      requires Lists(listing, entries)
      modifies this
      ensures r == Retention(keep, None)
      ensures c.evaluated == c.preserved + c.removed + c.errors
      ensures c.evaluated == |set n | n in old(entries) && old(entries)[n].eligible|
      ensures Tallied(old(entries), deleted, Removed(old(entries), r, deletes), c.removed, c.reclaimed)
      // each entry that was deleted is gone and counted once, with its size
      ensures c.removed == |deleted| && c.reclaimed == SizeOf(old(entries), deleted)
      ensures forall i, j :: 0 <= i < j < |deleted| ==> deleted[i] != deleted[j]
      ensures forall n :: n in deleted <==> n in old(entries) && n !in entries && deletes(n).Deleted?
      ensures SweptTo(old(entries), entries, r, deletes)
      ensures c.errors == |Unreadable(old(entries))| + |Undeleted(old(entries), r, deletes)|
      ensures NoFailures(old(entries), deletes) ==> c.errors == 0
      // when no delete fails, the newest releases stay, `keep` of them if there are as many
      ensures (forall n :: deletes(n).Deleted?) ==> KeepsTheNewest(old(entries), entries, keep, None)
    {
      ghost var d := entries;
      r := Retention(keep, None);
      var ordered: seq<string>;
      ordered, c := Scan(listing);
      var kept := Min(Max(0, keep), |ordered|);
      c := c.(preserved := c.preserved + kept);
      c, deleted := SweepTail(ordered, kept, deletes, c, d, r);
      RestDealtWith(d, ordered, kept, r, deletes);
      if NoFailures(d, deletes) { NoFailuresNoErrors(d, r, deletes); }
      if forall n :: deletes(n).Deleted? { PassKeepsTheNewest(d, entries, ordered, r, deletes); }
    }
  }

  lemma AtRank(d: Directory, s: seq<string>, i: nat)
    requires Ranked(d, s) && i < |s|
    ensures s[i] !in s[i + 1..] && Candidate(d, s[i]) && |NewerOnes(d, s[i])| == i
  {
  }

  /** With an age limit, a candidate survives when it is among the newest and recent enough. */
  lemma CondemnedRun(d: Directory, s: seq<string>, i: nat, r: Retention, now: real, maxAge: real)
    requires Ranked(d, s) && i < |s| && r.oldest == Some(now - maxAge)
    ensures Candidate(d, s[i]) && s[i] !in s[i + 1..]
    ensures Condemned(d, s[i], r) <==> !(i < Max(0, r.keep) && now - d[s[i]].modified.value <= maxAge)
  {
    AtRank(d, s, i);
  }

  lemma CondemnedRelease(d: Directory, s: seq<string>, i: nat, r: Retention)
    requires Ranked(d, s) && Max(0, r.keep) <= i < |s|
    ensures Condemned(d, s[i], r) && s[i] !in s[i + 1..]
  {
    AtRank(d, s, i);
  }

  /** Without an age limit the condemned are the tail of the newest-first order. */
  lemma CondemnedAreTheRest(d: Directory, ordered: seq<string>, kept: nat, r: Retention)
    requires Ranked(d, ordered)
    requires r.oldest.None? && kept == Min(Max(0, r.keep), |ordered|)
    ensures forall n :: n in ordered[kept..] <==> Condemned(d, n, r)
  {
    forall n ensures n in ordered[kept..] <==> Condemned(d, n, r) {
      if n in ordered {
        var k :| 0 <= k < |ordered| && ordered[k] == n;
        AtRank(d, ordered, k);
        if k >= kept { assert ordered[kept..][k - kept] == n; }
        if n in ordered[kept..] {
          var m :| kept <= m < |ordered| && ordered[m] == n;
          AtRank(d, ordered, m);
        }
      }
    }
  }

  lemma RestDealtWith(d: Directory, ordered: seq<string>, kept: nat, r: Retention, deletes: string -> Deletion)
    requires Ranked(d, ordered)
    requires r.oldest.None? && kept == Min(Max(0, r.keep), |ordered|)
    ensures var rest := ordered[kept..];
      && SweptTo(d, Left(d, rest, r, deletes), r, deletes) && Gone(d, rest, r, deletes) == Removed(d, r, deletes)
      && Failed(d, rest, r, deletes) == Undeleted(d, r, deletes)
  {
    CondemnedAreTheRest(d, ordered, kept, r);
    AllDealtWith(d, ordered[kept..], r, deletes);
  }

  // ---------------------------------------------------------------- what a pass guarantees

  /** Shielded entries survive any pattern of delete failures. */
  lemma ShieldedSurvive(d: Directory, d': Directory, r: Retention, deletes: string -> Deletion, name: string)
    requires SweptTo(d, d', r, deletes) && name in d && (d[name].shielded || !d[name].eligible)
    ensures name in d' && d'[name] == d[name]
  {
    assert !Condemned(d, name, r);
  }

  /** Without failures the survivors are exactly the uncondemned, and a second pass removes nothing. */
  lemma SecondPassRemovesNothing(d: Directory, d': Directory, r: Retention, deletes: string -> Deletion, name: string)
    requires SweptTo(d, d', r, deletes) && forall n :: deletes(n).Deleted?
    ensures Candidate(d', name) <==> Candidate(d, name) && !Condemned(d, name, r)
    ensures !Condemned(d', name, r)
  {
    if Candidate(d', name) {
      forall n | n in NewerOnes(d', name) ensures n in NewerOnes(d, name) {
        assert Candidate(d', n) && n in d' && d'[n] == d[n];
      }
      SubsetSize(NewerOnes(d', name), NewerOnes(d, name));
      assert !Condemned(d, name, r);
    }
  }
}
