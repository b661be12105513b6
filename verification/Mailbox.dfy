/**
 * The per-channel ciphertext mailbox: internal/relay/store.go and its second
 * implementation internal/fakerelay/mailbox.go. Times are in nanoseconds.
 */
module Mailbox {
  import opened Bytes
  import opened Sequence

  datatype Item = Item(n: u64, pushClass: string, body: seq<byte>, at: int)

  datatype Policy = Policy(ttl: int, maxFrames: int, maxBytes: int)

  function Size(items: seq<Item>): nat {
    if items == [] then 0 else |items[0].body| + Size(items[1..])
  }

  // ---------------------------------------------------------------------
  // What each operation computes
  // ---------------------------------------------------------------------

  /** Drop leading items older than the TTL. */
  function Prune(items: seq<Item>, now: int, ttl: int): seq<Item> {
    if items == [] || now - items[0].at < ttl then items else Prune(items[1..], now, ttl)
  }

  predicate OverCap(items: seq<Item>, pol: Policy) {
    |items| > pol.maxFrames || Size(items) > pol.maxBytes
  }

  /** Evict the oldest until both caps hold or nothing is left. */
  function Evict(items: seq<Item>, pol: Policy): seq<Item> {
    if items != [] && OverCap(items, pol) then Evict(items[1..], pol) else items
  }

  function Append(items: seq<Item>, it: Item, now: int, pol: Policy): seq<Item> {
    Evict(Prune(items, now, pol.ttl) + [it], pol)
  }

  /** The items numbered above `after`, in order. */
  function Above(items: seq<Item>, after: u64): seq<Item> {
    if items == [] then []
    else
      var most, it := Above(items[..|items| - 1], after), items[|items| - 1];
      if it.n > after then most + [it] else most
  }

  datatype Fetched = Fetched(items: seq<Item>, next: u64, truncated: bool)

  /** The first `limit` items above `after`. */
  function Fetch(items: seq<Item>, after: u64, limit: nat): Fetched {
    var all := Above(items, after);
    var got := if |all| <= limit then all else all[..limit];
    Fetched(got, if got == [] then after else got[|got| - 1].n, |all| > limit)
  }

  // ---------------------------------------------------------------------
  // The mailbox object
  // ---------------------------------------------------------------------

  class Mailbox {
    var items: seq<Item>
    var bytes: int

    ghost predicate Valid()
      reads this
    {
      bytes == Size(items)
    }

    constructor ()
      ensures Valid() && items == []
    {
      items, bytes := [], 0;
    }

    method PruneOld(now: int, ttl: int)
      requires Valid()
      modifies this
      ensures Valid() && items == Prune(old(items), now, ttl)
    {
      var i := 0;
      while i < |items| && now - items[i].at >= ttl
        invariant 0 <= i <= |items| && items == old(items)
        invariant bytes == Size(items[i..])
        invariant Prune(items, now, ttl) == Prune(items[i..], now, ttl)
      {
        assert items[i..][1..] == items[i + 1..];
        bytes := bytes - |items[i].body|;
        i := i + 1;
      }
      items := items[i..];
    }

    method AppendItem(it: Item, now: int, pol: Policy)
      requires Valid()
      modifies this
      ensures Valid() && items == Append(old(items), it, now, pol)
    {
      PruneOld(now, pol.ttl);
      ghost var full := items + [it];
      SizeSnoc(items, it);
      items := items + [it];
      bytes := bytes + |it.body|;
      while |items| > 0 && (|items| > pol.maxFrames || bytes > pol.maxBytes)
        invariant Valid() && Evict(full, pol) == Evict(items, pol)
      {
        bytes := bytes - |items[0].body|;
        items := items[1..];
      }
    }

    /** store.go fetch: prune by TTL only, then scan. */
    method FetchItems(after: u64, limit: nat, now: int, ttl: int) returns (r: Fetched)
      requires Valid()
      modifies this
      ensures Valid() && items == Prune(old(items), now, ttl)
      ensures r == Fetch(items, after, limit)
    {
      PruneOld(now, ttl);
      r := ScanReturning(items, after, limit);
    }

    /** mailbox.go get: the same with its own loop. */
    method Get(after: u64, limit: nat, now: int, ttl: int) returns (r: Fetched)
      requires Valid()
      modifies this
      ensures Valid() && items == Prune(old(items), now, ttl)
      ensures r == Fetch(items, after, limit)
    {
      PruneOld(now, ttl);
      r := ScanBreaking(items, after, limit);
    }
  }

  function LastOr(got: seq<Item>, after: u64): u64 {
    if got == [] then after else got[|got| - 1].n
  }

  lemma AboveStep(items: seq<Item>, i: nat, after: u64)
    requires i < |items|
    ensures Above(items[..i + 1], after)
         == if items[i].n > after then Above(items[..i], after) + [items[i]] else Above(items[..i], after)
  {
    assert items[..i + 1][..i] == items[..i];
  }

  lemma {:induction false} AbovePrefix(items: seq<Item>, i: nat, after: u64)
    requires i <= |items|
    ensures Above(items[..i], after) <= Above(items, after)
    decreases |items|
  {
    if i < |items| {
      AbovePrefix(items[..|items| - 1], i, after);
      assert items[..|items| - 1][..i] == items[..i];
    } else {
      assert items[..i] == items;
    }
  }

  lemma AboveCut(items: seq<Item>, i: nat, after: u64, limit: nat)
    requires i < |items| && items[i].n > after && limit == |Above(items[..i], after)|
    ensures Fetch(items, after, limit)
         == Fetched(Above(items[..i], after), LastOr(Above(items[..i], after), after), true)
  {
    AboveStep(items, i, after);
    AbovePrefix(items, i, after);
    AbovePrefix(items, i + 1, after);
  }

  /** store.go: return as soon as one more than `limit` is seen. */
  method ScanReturning(items: seq<Item>, after: u64, limit: nat) returns (r: Fetched)
    ensures r == Fetch(items, after, limit)
  {
    var next, got := after, [];
    for i := 0 to |items|
      invariant got == Above(items[..i], after)
      invariant |got| <= limit && next == LastOr(got, after)
    {
      AboveStep(items, i, after);
      if items[i].n <= after {
        continue;
      }
      if |got| >= limit {
        AboveCut(items, i, after, limit);
        return Fetched(got, next, true);
      }
      got := got + [items[i]];
      next := items[i].n;
    }
    assert items[..|items|] == items;
    return Fetched(got, next, false);
  }

  /** mailbox.go: mark the cut and break out of the loop. */
  method ScanBreaking(items: seq<Item>, after: u64, limit: nat) returns (r: Fetched)
    ensures r == Fetch(items, after, limit)
  {
    var next, got, truncated := after, [], false;
    for i := 0 to |items|
      invariant !truncated && got == Above(items[..i], after)
      invariant |got| <= limit && next == LastOr(got, after)
    {
      AboveStep(items, i, after);
      if items[i].n > after {
        if |got| >= limit {
          AboveCut(items, i, after, limit);
          truncated := true;
          break;
        }
        got := got + [items[i]];
        next := items[i].n;
      }
    }
    if !truncated {
      assert items[..|items|] == items;
    }
    r := Fetched(got, next, truncated);
  }

  lemma {:induction false} SizeSnoc(items: seq<Item>, it: Item)
    ensures Size(items + [it]) == Size(items) + |it.body|
  {
    if items != [] {
      assert (items + [it])[1..] == items[1..] + [it];
      SizeSnoc(items[1..], it);
    } else {
      assert [it][1..] == [];
    }
  }

  // ---------------------------------------------------------------------
  // What a mailbox is after any run
  // ---------------------------------------------------------------------

  datatype Call =
    | Put(it: Item)                     // appended at it.at
    | Read(now: int)                    // a fetch, whatever its cursor and limit

  function Time(c: Call): int { if c.Put? then c.it.at else c.now }

  function Do(items: seq<Item>, c: Call, pol: Policy): seq<Item> {
    match c
    case Put(it) => Append(items, it, it.at, pol)
    case Read(now) => Prune(items, now, pol.ttl)
  }

  function Contents(calls: seq<Call>, pol: Policy): seq<Item> {
    if calls == [] then [] else Do(Contents(calls[..|calls| - 1], pol), calls[|calls| - 1], pol)
  }

  /** Everything ever appended, in arrival order. */
  function Arrivals(calls: seq<Call>): seq<Item> {
    if calls == [] then []
    else Arrivals(calls[..|calls| - 1]) + (if calls[|calls| - 1].Put? then [calls[|calls| - 1].it] else [])
  }

  predicate Nondecreasing(calls: seq<Call>) {
    forall i, j :: 0 <= i < j < |calls| ==> Time(calls[i]) <= Time(calls[j])
  }

  /** A list that may be held at `now`: all fresh, within both caps. */
  predicate Holdable(items: seq<Item>, now: int, pol: Policy) {
    items == [] || (!OverCap(items, pol) && forall i :: 0 <= i < |items| ==> now - items[i].at < pol.ttl)
  }

  /** `s` is the longest suffix of `all` that may be held at `now`. */
  ghost predicate LongestHoldable(s: seq<Item>, all: seq<Item>, now: int, pol: Policy) {
    && |s| <= |all| && s == all[|all| - |s|..]
    && Holdable(s, now, pol)
    && forall k :: 0 <= k < |all| - |s| ==> !Holdable(all[k..], now, pol)
  }

  predicate SortedByTime(items: seq<Item>) {
    forall i, j :: 0 <= i < j < |items| ==> items[i].at <= items[j].at
  }

  lemma {:induction false} SizeSuffix(items: seq<Item>, k: nat)
    requires k <= |items|
    ensures Size(items[k..]) <= Size(items)
  {
    if k != 0 {
      SizeSuffix(items[1..], k - 1);
      assert items[1..][k - 1..] == items[k..];
    }
  }

  lemma {:induction false} PruneLongest(items: seq<Item>, now: int, ttl: int)
    ensures var p := Prune(items, now, ttl);
            && |p| <= |items| && p == items[|items| - |p|..]
            && (p != [] ==> now - p[0].at < ttl)
            && forall k :: 0 <= k < |items| - |p| ==> now - items[k].at >= ttl
  {
    if items != [] && now - items[0].at >= ttl {
      PruneLongest(items[1..], now, ttl);
      var p := Prune(items, now, ttl);
      assert items[1..][|items| - 1 - |p|..] == items[|items| - |p|..];
      forall k | 0 <= k < |items| - |p| ensures now - items[k].at >= ttl {
        if k > 0 { assert items[k] == items[1..][k - 1]; }
      }
    }
  }

  lemma {:induction false} EvictLongest(items: seq<Item>, pol: Policy)
    ensures var e := Evict(items, pol);
            && |e| <= |items| && e == items[|items| - |e|..]
            && (e == [] || !OverCap(e, pol))
            && forall k :: 0 <= k < |items| - |e| ==> OverCap(items[k..], pol)
  {
    if items != [] && OverCap(items, pol) {
      EvictLongest(items[1..], pol);
      var e := Evict(items, pol);
      assert items[1..][|items| - 1 - |e|..] == items[|items| - |e|..];
      forall k | 0 <= k < |items| - |e| ensures OverCap(items[k..], pol) {
        if k == 0 { assert items[0..] == items; } else { assert items[k..] == items[1..][k - 1..]; }
      }
    }
  }

  lemma OverCapSnoc(items: seq<Item>, it: Item, pol: Policy)
    requires OverCap(items, pol)
    ensures OverCap(items + [it], pol)
  {
    SizeSnoc(items, it);
  }

  /** What could not be held cannot be held later. */
  lemma StaysUnholdable(items: seq<Item>, then_: int, now: int, pol: Policy)
    requires !Holdable(items, then_, pol) && then_ <= now
    ensures !Holdable(items, now, pol)
  {
    if !OverCap(items, pol) {
      var i :| 0 <= i < |items| && then_ - items[i].at >= pol.ttl;
      assert now - items[i].at >= pol.ttl;
    }
  }

  /** A suffix in time order whose first item is fresh and that fits is holdable. */
  lemma FreshSuffix(s: seq<Item>, k: nat, now: int, pol: Policy)
    requires SortedByTime(s) && k < |s| && now - s[k].at < pol.ttl && !OverCap(s, pol)
    ensures Holdable(s[k..], now, pol)
  {
    SizeSuffix(s, k);
    forall i | 0 <= i < |s[k..]| ensures now - s[k..][i].at < pol.ttl {
      assert s[k..][i] == s[k + i];
    }
  }

  /** Pruning keeps the longest holdable suffix as time passes. */
  lemma PruneKeepsLongest(s: seq<Item>, all: seq<Item>, then_: int, now: int, pol: Policy)
    requires LongestHoldable(s, all, then_, pol) && then_ <= now && SortedByTime(all)
    ensures LongestHoldable(Prune(s, now, pol.ttl), all, now, pol)
  {
    var p, off := Prune(s, now, pol.ttl), |all| - |s|;
    PruneLongest(s, now, pol.ttl);
    assert p == all[|all| - |p|..];
    if p != [] {
      FreshSuffix(s, |s| - |p|, now, pol);
    }
    forall k | 0 <= k < |all| - |p| ensures !Holdable(all[k..], now, pol) {
      if k < off {
        StaysUnholdable(all[k..], then_, now, pol);
      } else {
        assert all[k..][0] == s[k - off];
      }
    }
  }

  lemma NotHoldableSnoc(items: seq<Item>, it: Item, now: int, pol: Policy)
    requires !Holdable(items, now, pol)
    ensures !Holdable(items + [it], now, pol)
  {
    if OverCap(items, pol) {
      OverCapSnoc(items, it, pol);
    } else {
      var i :| 0 <= i < |items| && now - items[i].at >= pol.ttl;
      assert (items + [it])[i] == items[i];
    }
  }

  lemma SuffixOfLonger(all: seq<Item>, off: nat, it: Item, k: nat)
    requires off <= k <= |all|
    ensures (all + [it])[k..] == (all[off..] + [it])[k - off..]
  {
  }

  lemma SnocOfSuffix(all: seq<Item>, it: Item, k: nat)
    requires k <= |all|
    ensures (all + [it])[k..] == all[k..] + [it]
  {
  }

  /** No longer suffix of the longer history is holdable. */
  lemma NoLongerHoldable(s: seq<Item>, all: seq<Item>, it: Item, pol: Policy, k: nat)
    requires LongestHoldable(s, all, it.at, pol) && k < |all| + 1 - |Evict(s + [it], pol)|
    ensures !Holdable((all + [it])[k..], it.at, pol)
  {
    var off := |all| - |s|;
    if k < off {
      SnocOfSuffix(all, it, k);
      NotHoldableSnoc(all[k..], it, it.at, pol);
    } else {
      EvictLongest(s + [it], pol);
      SuffixOfLonger(all, off, it, k);
      assert OverCap((s + [it])[k - off..], pol);
    }
  }

  /** Appending and evicting gives the longest holdable suffix of the longer history. */
  lemma AppendKeepsLongest(s: seq<Item>, all: seq<Item>, it: Item, pol: Policy)
    requires LongestHoldable(s, all, it.at, pol) && 0 < pol.ttl
    ensures LongestHoldable(Evict(s + [it], pol), all + [it], it.at, pol)
  {
    var full, hist := s + [it], all + [it];
    var e := Evict(full, pol);
    EvictLongest(full, pol);
    assert hist[|all| - |s|..] == full;
    assert hist[|hist| - |e|..] == full[|full| - |e|..];
    forall k | 0 <= k < |hist| - |e| ensures !Holdable(hist[k..], it.at, pol) {
      NoLongerHoldable(s, all, it, pol, k);
    }
  }

  lemma {:induction false} ArrivalsSorted(calls: seq<Call>)
    requires Nondecreasing(calls)
    ensures SortedByTime(Arrivals(calls))
    ensures calls != [] ==>
              forall i :: 0 <= i < |Arrivals(calls)| ==> Arrivals(calls)[i].at <= Time(calls[|calls| - 1])
    decreases |calls|
  {
    if calls != [] {
      var most := calls[..|calls| - 1];
      ArrivalsSorted(most);
      if most != [] {
        assert Time(most[|most| - 1]) <= Time(calls[|calls| - 1]);
      }
    }
  }

  /**
   * After any run of appends and fetches under a fixed policy with a positive TTL and
   * a clock that does not go back, the mailbox is exactly the longest suffix of the
   * arrival history that is unexpired and within both caps.
   */
  lemma {:induction false} ContentsLongest(calls: seq<Call>, pol: Policy)
    requires Nondecreasing(calls) && 0 < pol.ttl && calls != []
    ensures LongestHoldable(Contents(calls, pol), Arrivals(calls), Time(calls[|calls| - 1]), pol)
    decreases |calls|
  {
    var most, c := calls[..|calls| - 1], calls[|calls| - 1];
    var now := Time(c);
    ArrivalsSorted(most);
    if most == [] {
      assert Contents(most, pol) == [] && Arrivals(most) == [];
    } else {
      ContentsLongest(most, pol);
      PruneKeepsLongest(Contents(most, pol), Arrivals(most), Time(most[|most| - 1]), now, pol);
    }
    var p := Prune(Contents(most, pol), now, pol.ttl);
    assert LongestHoldable(p, Arrivals(most), now, pol);
    if c.Put? {
      AppendKeepsLongest(p, Arrivals(most), c.it, pol);
    } else {
      assert Arrivals(calls) == Arrivals(most);
    }
  }

  predicate NotAhead(items: seq<Item>, now: int) {
    forall i :: 0 <= i < |items| ==> items[i].at <= now
  }

  lemma {:induction false} ContentsNotAhead(calls: seq<Call>, pol: Policy, now: int)
    requires forall i :: 0 <= i < |calls| ==> Time(calls[i]) <= now
    ensures NotAhead(Contents(calls, pol), now)
    decreases |calls|
  {
    if calls != [] {
      var most, c := calls[..|calls| - 1], calls[|calls| - 1];
      ContentsNotAhead(most, pol, now);
      var p := Prune(Contents(most, pol), Time(c), pol.ttl);
      PruneLongest(Contents(most, pol), Time(c), pol.ttl);
      assert NotAhead(p, now);
      if c.Put? {
        var full := p + [c.it];
        EvictLongest(full, pol);
        assert NotAhead(full, now);
      }
    }
  }

  lemma {:induction false} PruneEverything(items: seq<Item>, now: int, ttl: int)
    requires ttl <= 0 && NotAhead(items, now)
    ensures Prune(items, now, ttl) == []
  {
    if items != [] {
      PruneEverything(items[1..], now, ttl);
    }
  }

  /** With a TTL that is not positive nothing nonempty is holdable. */
  lemma NothingHoldable(all: seq<Item>, now: int, pol: Policy)
    requires pol.ttl <= 0 && NotAhead(all, now)
    ensures forall s :: LongestHoldable(s, all, now, pol) <==> s == []
  {
    forall k | 0 <= k < |all| ensures !Holdable(all[k..], now, pol) {
      assert all[k..][0] == all[k];
    }
    assert LongestHoldable([], all, now, pol);
  }

  /**
   * The exact condition: the mailbox is that longest suffix if and only if the TTL is
   * positive, the last call was a fetch, or the last item alone breaks a cap. With a
   * TTL that is not positive a new item is stored although it has already expired.
   */
  lemma ContentsLongestIff(calls: seq<Call>, pol: Policy)
    requires Nondecreasing(calls) && calls != []
    ensures var c := calls[|calls| - 1];
            LongestHoldable(Contents(calls, pol), Arrivals(calls), Time(c), pol)
            <==> 0 < pol.ttl || c.Read? || OverCap([c.it], pol)
  {
    if 0 < pol.ttl {
      ContentsLongest(calls, pol);
    } else {
      var most, c := calls[..|calls| - 1], calls[|calls| - 1];
      ContentsNotAhead(most, pol, Time(c));
      PruneEverything(Contents(most, pol), Time(c), pol.ttl);
      ArrivalsSorted(calls);
      NothingHoldable(Arrivals(calls), Time(c), pol);
      if c.Put? {
        EvictOne(c.it, pol);
        assert [] + [c.it] == [c.it];
      }
    }
  }

  lemma EvictOne(it: Item, pol: Policy)
    ensures Evict([it], pol) == if OverCap([it], pol) then [] else [it]
  {
    assert [it][1..] == [];
  }

  // ---------------------------------------------------------------------
  // Paging
  // ---------------------------------------------------------------------

  predicate Increasing(items: seq<Item>) {
    forall i, j :: 0 <= i < j < |items| ==> items[i].n < items[j].n
  }

  lemma {:induction false} NoneAbove(items: seq<Item>, n: u64)
    requires forall i :: 0 <= i < |items| ==> items[i].n <= n
    ensures Above(items, n) == []
  {
    if items != [] {
      NoneAbove(items[..|items| - 1], n);
    }
  }

  lemma {:induction false} AboveMember(items: seq<Item>, after: u64, k: nat) returns (i: nat)
    requires k < |Above(items, after)|
    ensures i < |items| && items[i] == Above(items, after)[k] && items[i].n > after
  {
    var most := items[..|items| - 1];
    if k < |Above(most, after)| {
      i := AboveMember(most, after, k);
    } else {
      i := |items| - 1;
    }
  }

  /** Reading on from the last item of a page yields exactly the rest. */
  lemma {:induction false} AboveResumes(items: seq<Item>, after: u64, k: nat)
    requires Increasing(items) && k < |Above(items, after)|
    ensures Above(items, Above(items, after)[k].n) == Above(items, after)[k + 1..]
    decreases |items|
  {
    var most, last := items[..|items| - 1], items[|items| - 1];
    var all := Above(items, after);
    if k < |Above(most, after)| {
      AboveResumes(most, after, k);
      var i := AboveMember(most, after, k);
      assert all[k].n < last.n;
    } else {
      NoneAbove(most, last.n);
    }
  }

  /** Pruning again at the same time removes nothing more. */
  lemma PruneSettles(items: seq<Item>, now: int, ttl: int)
    ensures Prune(Prune(items, now, ttl), now, ttl) == Prune(items, now, ttl)
  {
    PruneLongest(items, now, ttl);
  }

  /** A page cut short moves the cursor forward. */
  lemma CursorRises(items: seq<Item>, after: u64, limit: nat)
    requires 1 <= limit && Fetch(items, after, limit).truncated
    ensures Fetch(items, after, limit).next > after
  {
    var i := AboveMember(items, after, limit - 1);
  }

  /** Following `next` while `truncated`, onto what was collected so far. */
  function PagedOnto(got: seq<Item>, items: seq<Item>, after: u64, limit: nat): seq<Item>
    requires 1 <= limit
    decreases U64_SIZE - after
  {
    var page := Fetch(items, after, limit);
    if !page.truncated then got + page.items
    else
      CursorRises(items, after, limit);
      PagedOnto(got + page.items, items, page.next, limit)
  }

  function Paged(items: seq<Item>, after: u64, limit: nat): seq<Item>
    requires 1 <= limit
  {
    PagedOnto([], items, after, limit)
  }

  lemma {:induction false} AboveAbove(items: seq<Item>, after: u64)
    ensures Above(Above(items, 0), after) == Above(items, after)
  {
    if items != [] {
      var most, it := items[..|items| - 1], items[|items| - 1];
      AboveAbove(most, after);
      if it.n > 0 {
        assert Above(items, 0)[..|Above(most, 0)|] == Above(most, 0);
      }
    }
  }

  /** A page is as much of what is above its start as fits; it is truncated exactly if something is left over. */
  lemma PageExact(items: seq<Item>, after: u64, limit: nat) returns (rest: seq<Item>)
    ensures var page := Fetch(items, after, limit);
            && Above(items, after) == page.items + rest && |page.items| <= limit
            && (page.truncated <==> rest != []) && (rest != [] ==> |page.items| == limit)
            && page.next == if page.items == [] then after else page.items[|page.items| - 1].n
  {
    rest := Above(items, after)[|Fetch(items, after, limit).items|..];
  }

  /** With increasing numbers a page cut short and what is above its cursor are all there is. */
  lemma PageAndRest(items: seq<Item>, after: u64, limit: nat)
    requires 1 <= limit && Increasing(Above(items, 0)) && Fetch(items, after, limit).truncated
    ensures var page := Fetch(items, after, limit); Above(items, after) == page.items + Above(items, page.next)
  {
    var page, all := Fetch(items, after, limit), Above(items, after);
    assert Above(items, page.next) == all[limit..] by {
      AboveAbove(items, after);
      AboveAbove(items, page.next);
      AboveResumes(Above(items, 0), after, limit - 1);
    }
    assert all == all[..limit] + all[limit..];
  }

  /** Increasing numbers page out whole. */
  lemma {:induction false} PagedWhole(got: seq<Item>, items: seq<Item>, after: u64, limit: nat)
    requires 1 <= limit && Increasing(Above(items, 0))
    ensures PagedOnto(got, items, after, limit) == got + Above(items, after)
    decreases U64_SIZE - after
  {
    var page := Fetch(items, after, limit);
    if page.truncated {
      CursorRises(items, after, limit);
      PagedWhole(got + page.items, items, page.next, limit);
      PageAndRest(items, after, limit);
    }
  }

  /** Pages of one item always come out increasing. */
  lemma {:induction false} SinglesIncrease(got: seq<Item>, items: seq<Item>, after: u64)
    requires Increasing(got) && forall k :: 0 <= k < |got| ==> got[k].n <= after
    ensures Increasing(PagedOnto(got, items, after, 1))
    decreases U64_SIZE - after
  {
    var page := Fetch(items, after, 1);
    if page.items != [] {
      var i := AboveMember(items, after, 0);
    }
    if page.truncated {
      CursorRises(items, after, 1);
      SinglesIncrease(got + page.items, items, page.next);
    }
  }

  /**
   * Paging yields exactly the stored items above the start, for every start and every limit
   * of at least one, if and only if the numbers stored above zero increase.
   */
  lemma PagingIff(items: seq<Item>)
    ensures (forall start: u64, limit: nat :: 1 <= limit ==> Paged(items, start, limit) == Above(items, start))
       <==> Increasing(Above(items, 0))
  {
    if Increasing(Above(items, 0)) {
      forall start: u64, limit: nat | 1 <= limit ensures Paged(items, start, limit) == Above(items, start) {
        PagedWhole([], items, start, limit);
      }
    } else {
      SinglesIncrease([], items, 0);
      assert Paged(items, 0, 1) != Above(items, 0);
    }
  }

  /**
   * The drain loop against a mailbox object that no one appends to, on a still clock, with
   * either implementation: it terminates for every limit of at least one, of the mailbox it
   * takes away only what has expired, and with increasing numbers it collects exactly the
   * unexpired items above the start, each once and in order.
   */
  method DrainAll(m: Mailbox, start: u64, limit: nat, now: int, ttl: int, fake: bool) returns (got: seq<Item>)
    requires m.Valid() && 1 <= limit
    modifies m
    ensures m.Valid() && m.items == Prune(old(m.items), now, ttl)
    ensures got == Paged(m.items, start, limit)
    ensures Increasing(Above(m.items, 0)) ==> got == Above(m.items, start)
  {
    ghost var held := Prune(m.items, now, ttl);
    PruneSettles(m.items, now, ttl);
    if Increasing(Above(held, 0)) {
      PagedWhole([], held, start, limit);
    }
    var after, more := start, true;
    got := [];
    while more
      invariant m.Valid() && Prune(m.items, now, ttl) == held && (!more ==> m.items == held)
      invariant Paged(held, start, limit) == if more then PagedOnto(got, held, after, limit) else got
      decreases more, U64_SIZE - after
    {
      var page;
      if fake {
        page := m.Get(after, limit, now, ttl);
      } else {
        page := m.FetchItems(after, limit, now, ttl);
      }
      if page.truncated {
        CursorRises(held, after, limit);
      }
      got := got + page.items;
      after, more := page.next, page.truncated;
    }
  }

  /** Two readers, with their own limits and implementations, leave the same mailbox and find the same. */
  method DrainTwice(m: Mailbox, start: u64, limit: nat, limit': nat, now: int, ttl: int) returns (got: seq<Item>, again: seq<Item>)
    requires m.Valid() && 1 <= limit && 1 <= limit'
    modifies m
    ensures m.Valid() && m.items == Prune(old(m.items), now, ttl)
    ensures limit == limit' || Increasing(Above(m.items, 0)) ==> got == again
    ensures Increasing(Above(m.items, 0)) ==> got == Above(m.items, start)
  {
    PruneSettles(m.items, now, ttl);
    got := DrainAll(m, start, limit, now, ttl, true);
    again := DrainAll(m, start, limit', now, ttl, false);
  }

  /** Without increasing numbers the cursor loses items: here it reports 2 and never 1. */
  lemma PagingNeedsIncreasing()
    ensures exists items: seq<Item>, after: u64 ::
              var page := Fetch(items, after, 1);
              page.truncated && Fetch(items, page.next, 1).items == [] && |Above(items, after)| == 2
  {
    var a, b := Item(2, "none", [], 0), Item(1, "none", [], 0);
    var items := [a, b];
    assert items[..1] == [a] && [a][..0] == [];
    assert Above([a], 0) == [a];
    assert Above(items, 0) == [a, b];
    assert Above([a], 2) == [];
    assert Above(items, 2) == [];
    assert Fetch(items, 0, 1) == Fetched([a], 2, true);
  }
}
