/** First-fit search over a sequence of "page is used" flags: what the scan
  promises, and the reference meaning it is measured against. */
module FirstFit {

  ghost predicate FreeRun(used: seq<bool>, start: nat, n: nat) {
    start + n <= |used| && forall k: nat :: start <= k < start + n ==> !used[k]
  }

  ghost predicate HasRun(used: seq<bool>, n: nat) {
    exists s: nat :: FreeRun(used, s, n)
  }

  /** `start` begins the lowest run of `n` free pages. */
  ghost predicate LowestRun(used: seq<bool>, n: nat, start: nat) {
    FreeRun(used, start, n) && forall s: nat :: s < start ==> !FreeRun(used, s, n)
  }

  /** `used` with the pages of one run set to `v`. */
  function Marked(used: seq<bool>, start: nat, n: nat, v: bool): (r: seq<bool>)
    requires start + n <= |used|
    ensures |r| == |used|
    ensures forall i: nat :: i < |r| ==> r[i] == if start <= i < start + n then v else used[i]
  {
    seq(|used|, i requires 0 <= i < |used| => if start <= i < start + n then v else used[i])
  }

  /** State of the scan before page `i`: `found` free pages end at `i`, the run is
    maximal, shorter than `n`, and no run of `n` pages ends earlier. */
  ghost predicate Scanned(used: seq<bool>, n: nat, i: nat, found: nat) {
    && i <= |used| && found < n && found <= i
    && (forall k: nat :: i - found <= k < i ==> !used[k])
    && (i - found > 0 ==> used[i - found - 1])
    && (forall s: nat :: s + n <= i ==> !FreeRun(used, s, n))
  }

  lemma ScanStep(used: seq<bool>, n: nat, i: nat, found: nat)
    requires Scanned(used, n, i, found) && i < |used|
    ensures used[i] ==> Scanned(used, n, i + 1, 0)
    ensures !used[i] && found + 1 < n ==> Scanned(used, n, i + 1, found + 1)
    ensures !used[i] && found + 1 == n ==> LowestRun(used, n, i - found)
  {
    forall s: nat | s + n <= i + 1 && (used[i] || found + 1 < n)
      ensures !FreeRun(used, s, n)
    {
      if s + n == i + 1 {
        var blocker := if used[i] then i else i - found - 1;
        assert s <= blocker < s + n && used[blocker];
      }
    }
  }

  /** Once every page is scanned without success there is no run at all. */
  lemma ScanDone(used: seq<bool>, n: nat, found: nat)
    requires Scanned(used, n, |used|, found)
    ensures !HasRun(used, n)
  {
  }

  /** The lowest run is unique. */
  lemma LowestRunUnique(used: seq<bool>, n: nat, s: nat, t: nat)
    requires LowestRun(used, n, s) && LowestRun(used, n, t)
    ensures s == t
  {
  }

  /** Taking a free run and giving it back restores every flag. */
  lemma MarkUnmark(used: seq<bool>, start: nat, n: nat)
    requires FreeRun(used, start, n)
    ensures Marked(Marked(used, start, n, true), start, n, false) == used
  {
    var r := Marked(Marked(used, start, n, true), start, n, false);
    assert forall i: nat :: i < |used| ==> r[i] == used[i];
  }
}
