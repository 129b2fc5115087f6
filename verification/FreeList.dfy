/** The free list threaded through the pages of a page file (src/storage/page_file.cpp). */
module FreeList {
  import opened Common
  import opened PageLayout
  import opened Distinct

  /** The file: page i at position i. */
  type Disk = seq<Page>

  const FORMAT_VERSION: nat := 1
  const MAX_PAGE_COUNT: nat := 0x1_0000_0000

  // ---------------------------------------------------------------- header and free pages

  /** The link of a page that carries the free-page mark. */
  function FreeLink(p: Page): Option<PageId> {
    if p[0] == 'T' as byte && p[1] == 'F' as byte && p[2] == 'R' as byte &&
        p[3] == '1' as byte then Some(GetU32(p, 4)) else None
  }

  function FreePage(next: PageId): (p: Page)
    ensures FreeLink(p) == Some(next)
  {
    PutU32(Splice(ZeroPage(), 0, ['T' as byte, 'F' as byte, 'R' as byte, '1' as byte]), 4, next)
  }

  // ---------------------------------------------------------------- the list

  /** Following the links from `head` visits exactly the list and ends at 0. */
  ghost predicate Linked(disk: Disk, count: nat, head: nat, list: seq<nat>)
    decreases |list|
  {
    if list == [] then head == 0
    else
      && head == list[0] && 0 < head < count && head < |disk|
      && FreeLink(disk[head]).Some? && Linked(disk, count, FreeLink(disk[head]).value, list[1..])
  }

  ghost predicate IsFreeList(disk: Disk, count: nat, head: nat, list: seq<nat>) {
    Linked(disk, count, head, list) && NoRepeats(list)
  }

  /** Links lead from `head` over the pages of `seen` to `current`. */
  ghost predicate Path(disk: Disk, count: nat, head: nat, seen: seq<nat>, current: nat)
    decreases |seen|
  {
    if seen == [] then head == current
    else
      && head == seen[0] && 0 < head < count && head < |disk|
      && FreeLink(disk[head]).Some? && Path(disk, count, FreeLink(disk[head]).value, seen[1..], current)
  }

  lemma {:induction false} PathGrows(disk: Disk, count: nat, head: nat, seen: seq<nat>, current: nat)
    requires Path(disk, count, head, seen, current) && 0 < current < count && current < |disk| &&
      FreeLink(disk[current]).Some?
    ensures Path(disk, count, head, seen + [current], FreeLink(disk[current]).value)
    decreases |seen|
  {
    if seen != [] {
      PathGrows(disk, count, FreeLink(disk[head]).value, seen[1..], current);
      assert (seen + [current])[1..] == seen[1..] + [current];
    } else {
      assert [current][1..] == [];
    }
  }

  lemma {:induction false} PathEnds(disk: Disk, count: nat, head: nat, seen: seq<nat>)
    requires Path(disk, count, head, seen, 0)
    ensures Linked(disk, count, head, seen)
    decreases |seen|
  {
    if seen != [] {
      PathEnds(disk, count, FreeLink(disk[head]).value, seen[1..]);
    }
  }

  /** A walk follows the list, if there is one. */
  lemma {:induction false} PathFollows(disk: Disk, count: nat, head: nat, seen: seq<nat>, current: nat, list: seq<nat>)
    requires Path(disk, count, head, seen, current) && Linked(disk, count, head, list)
    ensures |seen| <= |list| && list[..|seen|] == seen && Linked(disk, count, current, list[|seen|..])
    decreases |seen|
  {
    if seen != [] {
      PathFollows(disk, count, FreeLink(disk[head]).value, seen[1..], current, list[1..]);
      assert list[1..][..|seen| - 1] == seen[1..];
      assert list[1..][|seen| - 1..] == list[|seen|..];
      assert list[..|seen|] == [list[0]] + list[1..][..|seen| - 1];
    } else {
      assert list[0..] == list;
    }
  }

  lemma ListIsUnique(disk: Disk, count: nat, head: nat, a: seq<nat>, b: seq<nat>)
    requires Linked(disk, count, head, a) && Linked(disk, count, head, b)
    ensures a == b
    decreases |a|
  {
    if a != [] {
      ListIsUnique(disk, count, FreeLink(disk[head]).value, a[1..], b[1..]);
    }
  }

  lemma {:induction false} ListBounds(disk: Disk, count: nat, head: nat, list: seq<nat>, i: nat)
    requires Linked(disk, count, head, list) && i < |list|
    ensures 0 < list[i] < count && list[i] < |disk| && FreeLink(disk[list[i]]).Some?
    decreases |list|
  {
    if i > 0 {
      ListBounds(disk, count, FreeLink(disk[head]).value, list[1..], i - 1);
    }
  }

  /** Writes that keep the links of the list's pages keep the list. */
  lemma {:induction false} LinkedSame(disk: Disk, disk': Disk, count: nat, count': nat, head: nat, list: seq<nat>)
    requires Linked(disk, count, head, list) && count <= count' && |disk| <= |disk'|
    requires forall i :: 0 <= i < |list| ==> list[i] < |disk| && FreeLink(disk'[list[i]]) == FreeLink(disk[list[i]])
    ensures Linked(disk', count', head, list)
    decreases |list|
  {
    if list != [] {
      assert forall i :: 0 <= i < |list[1..]| ==> list[1..][i] == list[i + 1];
      LinkedSame(disk, disk', count, count', FreeLink(disk[head]).value, list[1..]);
    }
  }

  // ---------------------------------------------------------------- the walk

  /** What a walk over the links finds: the list, unless the bytes hold none. */
  datatype WalkResult = NotAList | Walked(list: seq<nat>)

  /** The walk of open and is_free_page_locked. It ends on every disk, whatever its bytes. */
  method Walk(disk: Disk, count: nat, head: nat) returns (r: WalkResult)
    ensures r.Walked? ==> IsFreeList(disk, count, head, r.list)
    ensures r.NotAList? ==> forall list :: !IsFreeList(disk, count, head, list)
  {
    var visited: set<nat> := {};
    var seen: seq<nat> := [];
    var current: nat := head;
    while current != 0
      invariant Path(disk, count, head, seen, current) && NoRepeats(seen)
      invariant forall x :: x in visited <==> x in seen
      invariant forall i :: 0 <= i < |seen| ==> 0 < seen[i] < count
      invariant |seen| <= count
      decreases count - |seen|
    {
      if current >= count || current in visited || current >= |disk| || FreeLink(disk[current]).None? {
        forall list ensures !IsFreeList(disk, count, head, list) {
          BadStep(disk, count, head, seen, current, list);
        }
        return NotAList;
      }
      PathGrows(disk, count, head, seen, current);
      DistinctFit(seen + [current], count);
      visited, seen, current := visited + {current}, seen + [current], FreeLink(disk[current]).value;
    }
    PathEnds(disk, count, head, seen);
    r := Walked(seen);
  }

  lemma BadStep(disk: Disk, count: nat, head: nat, seen: seq<nat>, current: nat, list: seq<nat>)
    requires Path(disk, count, head, seen, current) && current != 0
    requires current >= count || current in seen || current >= |disk| || FreeLink(disk[current]).None?
    ensures !IsFreeList(disk, count, head, list)
  {
    if IsFreeList(disk, count, head, list) {
      PathFollows(disk, count, head, seen, current, list);
      assert false;
    }
  }
}
