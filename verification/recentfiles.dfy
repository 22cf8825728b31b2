/**
 * The most-recently-used project list and the "open recent" menu that
 * shows it.
 */
module RecentFiles {
  import opened ScopeTypes

  /** `l` with every occurrence of `p` removed. */
  function RemoveAll(l: seq<string>, p: string): (r: seq<string>)
    ensures |r| <= |l|
    ensures p !in r
    ensures forall x :: x in r <==> x in l && x != p
    ensures |r| == |l| - Count(l, p)
    ensures forall x :: x != p ==> Count(r, x) == Count(l, x)
  {
    if |l| == 0 then []
    else if l[0] == p then RemoveAll(l[1..], p)
    else
      var t := RemoveAll(l[1..], p);
      assert ([l[0]] + t)[1..] == t;
      [l[0]] + t
  }

  /** At most the first `n` entries. */
  function KeepFirst(l: seq<string>, n: nat): (r: seq<string>)
    ensures |r| == if |l| <= n then |l| else n
    ensures |l| <= n ==> r == l
    ensures r == l[..|r|]
  {
    if |l| <= n then l else l[..n]
  }

  /**
   * Recording `p` as the most recently used file: an empty name changes
   * nothing; otherwise `p` is moved (or inserted) to the front and the list
   * is cut to `capacity` entries.
   */
  function Push(l: seq<string>, p: string, capacity: nat): (r: seq<string>)
    ensures p == "" ==> r == l
    ensures p != "" ==> |r| <= capacity
    ensures p != "" ==> |r| == if 1 + |RemoveAll(l, p)| <= capacity then 1 + |RemoveAll(l, p)| else capacity
    ensures p != "" && capacity >= 1 ==> |r| >= 1 && r[0] == p && p !in r[1..]
    ensures p != "" && capacity >= 1 ==> r[1..] == RemoveAll(l, p)[..|r| - 1]
    ensures p != "" ==> forall x :: x in r ==> x == p || x in l
  {
    if p == "" then l
    else
      var moved := [p] + RemoveAll(l, p);
      var r := KeepFirst(moved, capacity);
      assert r == moved[..|r|];
      assert forall i :: 1 <= i < |r| ==> r[i] == moved[i];
      r
  }

  /** Number of occurrences of `x` in `l`. */
  function Count(l: seq<string>, x: string): (n: nat)
    ensures n <= |l|
    ensures n == 0 <==> x !in l
  {
    if |l| == 0 then 0 else (if l[0] == x then 1 else 0) + Count(l[1..], x)
  }

  lemma {:induction false} CountAbsent(l: seq<string>, x: string)
    requires x !in l
    ensures Count(l, x) == 0
  {
  }

  /** After a push the pushed path occurs exactly once. */
  lemma {:induction false} PushOccursOnce(l: seq<string>, p: string, capacity: nat)
    requires p != "" && capacity >= 1
    ensures Count(Push(l, p, capacity), p) == 1
  {
    var r := Push(l, p, capacity);
    assert r == [r[0]] + r[1..];
    assert Count(r, p) == 1 + Count(r[1..], p);
    CountAbsent(r[1..], p);
  }

  /** `a` can be obtained from `b` by deleting entries (greedy matching from the front). */
  predicate IsSubsequence(a: seq<string>, b: seq<string>)
    decreases |b|
  {
    if |a| == 0 then true
    else if |b| == 0 then false
    else if a[0] == b[0] then IsSubsequence(a[1..], b[1..])
    else IsSubsequence(a, b[1..])
  }

  lemma {:induction false} RemoveAllIsSubsequence(l: seq<string>, p: string)
    ensures IsSubsequence(RemoveAll(l, p), l)
    decreases |l|
  {
    if |l| == 0 {
    } else if l[0] == p {
      RemoveAllIsSubsequence(l[1..], p);
      SubsequenceOfTail(RemoveAll(l[1..], p), l);
    } else {
      RemoveAllIsSubsequence(l[1..], p);
      var r := RemoveAll(l, p);
      assert r[1..] == RemoveAll(l[1..], p);
    }
  }

  /** A subsequence of the tail is a subsequence of the whole. */
  lemma {:induction false} SubsequenceOfTail(a: seq<string>, b: seq<string>)
    requires |b| > 0 && IsSubsequence(a, b[1..])
    ensures IsSubsequence(a, b)
    decreases |b|, |a|
  {
    if |a| == 0 {
    } else if a[0] == b[0] {
      SubsequenceTailOfBoth(a, b[1..]);
    }
  }

  /** Dropping the head of `a` keeps it a subsequence. */
  lemma {:induction false} SubsequenceTailOfBoth(a: seq<string>, b: seq<string>)
    requires |a| > 0 && IsSubsequence(a, b)
    ensures IsSubsequence(a[1..], b)
    decreases |b|, |a|
  {
    if a[0] == b[0] {
      if |a[1..]| > 0 {
        SubsequenceTailOfBoth(a[1..], b[1..]);
        SubsequenceOfTail(a[1..], b);
      }
    } else {
      SubsequenceTailOfBoth(a, b[1..]);
      if |a[1..]| > 0 {
        SubsequenceOfTail(a[1..], b);
      }
    }
  }

  /** A prefix of a subsequence is a subsequence. */
  lemma {:induction false} PrefixOfSubsequence(a: seq<string>, b: seq<string>, n: nat)
    requires n <= |a| && IsSubsequence(a, b)
    ensures IsSubsequence(a[..n], b)
    decreases |b|
  {
    if n == 0 {
    } else if a[0] == b[0] {
      assert a[..n][1..] == a[1..][..n - 1];
      PrefixOfSubsequence(a[1..], b[1..], n - 1);
    } else {
      PrefixOfSubsequence(a, b[1..], n);
    }
  }

  /** The entries behind the pushed path keep their relative order. */
  lemma PushKeepsOrder(l: seq<string>, p: string, capacity: nat)
    requires p != "" && capacity >= 1
    ensures IsSubsequence(Push(l, p, capacity)[1..], l)
  {
    var r := Push(l, p, capacity);
    var rest := RemoveAll(l, p);
    assert r[1..] == rest[..|r| - 1];
    RemoveAllIsSubsequence(l, p);
    PrefixOfSubsequence(rest, l, |r| - 1);
  }

  /** When there is room, no entry is lost: the list becomes `p` followed by the other entries in their old order. */
  lemma PushWithRoomKeepsAll(l: seq<string>, p: string, capacity: nat)
    requires p != "" && |l| < capacity
    ensures Push(l, p, capacity) == [p] + RemoveAll(l, p)
    ensures forall x :: x in l ==> x in Push(l, p, capacity)
  {
  }

  predicate NoDuplicates(l: seq<string>)
  {
    forall i, j :: 0 <= i < j < |l| ==> l[i] != l[j]
  }

  lemma {:induction false} RemoveAllNoDuplicates(l: seq<string>, p: string)
    requires NoDuplicates(l)
    ensures NoDuplicates(RemoveAll(l, p))
    decreases |l|
  {
    if |l| > 0 {
      assert NoDuplicates(l[1..]);
      RemoveAllNoDuplicates(l[1..], p);
      if l[0] != p {
        var t := RemoveAll(l[1..], p);
        assert l[0] !in l[1..];
        assert l[0] !in t;
        assert RemoveAll(l, p) == [l[0]] + t;
      }
    }
  }

  /** A list without repeated paths stays without repeated paths. */
  lemma PushNoDuplicates(l: seq<string>, p: string, capacity: nat)
    requires NoDuplicates(l)
    ensures NoDuplicates(Push(l, p, capacity))
  {
    if p != "" {
      RemoveAllNoDuplicates(l, p);
      var moved := [p] + RemoveAll(l, p);
      assert NoDuplicates(moved);
    }
  }

  lemma {:induction false} RemoveAllAbsent(l: seq<string>, p: string)
    requires p !in l
    ensures RemoveAll(l, p) == l
    decreases |l|
  {
    if |l| > 0 {
      RemoveAllAbsent(l[1..], p);
      assert l == [l[0]] + l[1..];
    }
  }

  /** Pushing the most recent path again changes nothing. */
  lemma PushIdempotent(l: seq<string>, p: string, capacity: nat)
    ensures Push(Push(l, p, capacity), p, capacity) == Push(l, p, capacity)
  {
    var r := Push(l, p, capacity);
    if p != "" && capacity >= 1 {
      RemoveAllAbsent(r[1..], p);
      assert RemoveAll(r, p) == RemoveAll(r[1..], p) by {
        assert r == [r[0]] + r[1..];
      }
      assert [p] + r[1..] == r;
    }
  }

  /** The menu after its slots are rewritten from `list`: slot i opens list[i]; slots past the list keep what they showed. */
  function Refreshed(m: RecentMenu, list: seq<string>): (r: RecentMenu)
    ensures r.enabled <==> |list| > 0
    ensures |r.slots| >= |list| && r.slots[..|list|] == list
    ensures |m.slots| >= |list| ==> r.slots[|list|..] == m.slots[|list|..]
  {
    RecentMenu(|list| > 0, list + (if |m.slots| > |list| then m.slots[|list|..] else []))
  }

  /**
   * Menu refresh as the source writes it: it is refused unless the list is
   * strictly shorter than the number of slots.
   */
  function RefreshMenuAsWritten(m: RecentMenu, list: seq<string>, slots: nat): (r: RecentMenu)
    ensures |list| < slots ==> r == Refreshed(m, list)
    ensures |list| >= slots ==> r == m
  {
    if |list| < slots then Refreshed(m, list) else m
  }

  /** Menu refresh with the evidently intended guard: any list that fits the slots is shown. */
  function RefreshMenu(m: RecentMenu, list: seq<string>, slots: nat): (r: RecentMenu)
    ensures |list| <= slots ==> r == Refreshed(m, list)
    ensures |list| > slots ==> r == m
  {
    if |list| <= slots then Refreshed(m, list) else m
  }

  /**
   * As written, a full list is never shown: with one slot, pushing the first
   * file leaves the menu disabled although the list holds that file.
   */
  lemma AsWrittenMenuMissesFullList()
    ensures var list := Push([], "a.ead", 1);
            var m := RefreshMenuAsWritten(RecentMenu(false, []), list, 1);
            list == ["a.ead"] && !m.enabled && m.slots == []
  {
  }

  /** Removing a path from a list without repeats drops at most one entry. */
  lemma {:induction false} RemoveAllDropsAtMostOne(l: seq<string>, p: string)
    requires NoDuplicates(l)
    ensures |RemoveAll(l, p)| + 1 >= |l|
    decreases |l|
  {
    if |l| > 0 {
      assert NoDuplicates(l[1..]);
      if l[0] == p {
        assert p !in l[1..];
        RemoveAllAbsent(l[1..], p);
      } else {
        RemoveAllDropsAtMostOne(l[1..], p);
      }
    }
  }

  /** As written, every push into an already full list (without repeats) leaves the menu stale. */
  lemma AsWrittenMenuStaleWhenFull(l: seq<string>, m: RecentMenu, p: string, slots: nat)
    requires p != "" && |l| >= slots && NoDuplicates(l)
    ensures RefreshMenuAsWritten(m, Push(l, p, slots), slots) == m
  {
    RemoveAllDropsAtMostOne(l, p);
  }

  /** With the corrected guard every push is shown: slot 0 opens the pushed path and the menu is enabled. */
  lemma PushThenRefreshShowsList(l: seq<string>, m: RecentMenu, p: string, slots: nat)
    requires p != "" && slots >= 1
    ensures var list := Push(l, p, slots);
            var r := RefreshMenu(m, list, slots);
            r.enabled && r.slots[..|list|] == list && r.slots[0] == p
  {
  }
}
