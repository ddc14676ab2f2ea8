/** Bounded in-memory result spool: a queue with a protected oldest prefix, a
    ceiling on entries and one on bytes. */
module ResultSpool {
  datatype Entry<T> = Entry(item: T, bytes: nat)

  datatype SpoolConfig = SpoolConfig(maxEntries: nat, maxBytes: nat, onsetReserve: nat) {
    static function New(maxEntries: nat, maxBytes: nat, onsetFraction: real): (c: SpoolConfig)
      ensures c.onsetReserve < c.maxEntries && c.maxBytes >= 1
    {
      var fraction := if onsetFraction < 0.0 then 0.0 else if onsetFraction > 0.9 then 0.9 else onsetFraction;
      var reserve := (maxEntries as real * fraction).Floor;
      var ceiling := if maxEntries >= 1 then maxEntries - 1 else 0;
      assert 0.0 <= maxEntries as real * fraction;
      SpoolConfig(if maxEntries >= 1 then maxEntries else 1, if maxBytes >= 1 then maxBytes else 1,
                  if reserve < ceiling then reserve else ceiling)
    }
  }

  /** What is configured from a request: neither ceiling is below one, and the reserve is
      the whole part of that share of the entries asked for, the share kept between
      nothing and nine tenths. */
  lemma ConfigExactly(maxEntries: nat, maxBytes: nat, onsetFraction: real)
    ensures var c := SpoolConfig.New(maxEntries, maxBytes, onsetFraction);
      && c.maxEntries == (if maxEntries > 1 then maxEntries else 1)
      && c.maxBytes == (if maxBytes > 1 then maxBytes else 1)
      && (onsetFraction <= 0.0 ==> c.onsetReserve == 0)
      && (0.0 <= onsetFraction <= 0.9 ==>
            c.onsetReserve as real <= maxEntries as real * onsetFraction < c.onsetReserve as real + 1.0)
      && (onsetFraction >= 0.9 ==> c.onsetReserve == maxEntries * 9 / 10)
  {
    if 0.0 <= onsetFraction <= 0.9 {
      ShareIsLess(maxEntries, onsetFraction);
    } else if onsetFraction > 0.9 {
      ShareIsLess(maxEntries, 0.9);
    }
    NineTenths(maxEntries);
  }

  lemma ShareIsLess(n: nat, share: real)
    requires 0.0 <= share <= 0.9
    ensures var whole := (n as real * share).Floor;
      0 <= whole && whole as real <= n as real * share < whole as real + 1.0 && (n >= 1 ==> whole <= n - 1)
  {
    var x := n as real;
    assert x * (0.9 - share) >= 0.0;
    assert 0.0 <= x * share <= x * 0.9;
    assert n >= 1 ==> x * 0.9 < x;
  }

  lemma NineTenths(n: nat)
    ensures (n as real * 0.9).Floor == n * 9 / 10
  {
    var q, r := n * 9 / 10, n * 9 % 10;
    assert n * 9 == 10 * q + r;
    assert n as real * 0.9 == q as real + r as real / 10.0;
  }

  datatype Accepted = Queued | QueuedEvicting(n: nat) | Rejected

  // The queue as a value -------------------------------------------------------------

  function Size<T>(q: seq<Entry<T>>): nat {
    if q == [] then 0 else Size(q[..|q| - 1]) + q[|q| - 1].bytes
  }

  lemma {:induction false} SizeConcat<T>(p: seq<Entry<T>>, q: seq<Entry<T>>)
    ensures Size(p + q) == Size(p) + Size(q)
  {
    if q == [] {
      assert p + q == p;
    } else {
      assert (p + q)[..|p + q| - 1] == p + q[..|q| - 1];
      SizeConcat(p, q[..|q| - 1]);
    }
  }

  lemma SizeOne<T>(e: Entry<T>)
    ensures Size([e]) == e.bytes
  {
    assert [e][..0] == [];
  }

  predicate Fits<T>(cfg: SpoolConfig, q: seq<Entry<T>>) {
    |q| <= cfg.maxEntries && Size(q) <= cfg.maxBytes
  }

  predicate WouldExceed<T>(cfg: SpoolConfig, q: seq<Entry<T>>, incoming: nat) {
    |q| >= cfg.maxEntries || Size(q) + incoming > cfg.maxBytes
  }

  /** The protected entries. */
  function Onset<T>(cfg: SpoolConfig, q: seq<Entry<T>>): seq<Entry<T>> {
    q[..if cfg.onsetReserve < |q| then cfg.onsetReserve else |q|]
  }

  /** What is left after evicting the `k` oldest unprotected entries. */
  function Thinned<T>(cfg: SpoolConfig, q: seq<Entry<T>>, k: nat): seq<Entry<T>>
    requires |Onset(cfg, q)| + k <= |q|
  {
    Onset(cfg, q) + q[|Onset(cfg, q)| + k..]
  }

  lemma ThinnedSize<T>(cfg: SpoolConfig, q: seq<Entry<T>>, i: nat, k: nat)
    requires i <= k && |Onset(cfg, q)| + k <= |q|
    ensures Size(Thinned(cfg, q, k)) <= Size(Thinned(cfg, q, i))
  {
    var r := |Onset(cfg, q)|;
    SizeConcat(Onset(cfg, q), q[r + k..]);
    SizeConcat(Onset(cfg, q), q[r + i..]);
    SplitAt(q, r + i, r + k);
    SizeConcat(q[r + i..r + k], q[r + k..]);
  }

  lemma SplitAt<T>(q: seq<Entry<T>>, a: nat, b: nat)
    requires a <= b <= |q|
    ensures q[a..] == q[a..b] + q[b..]
  {
  }

  lemma ThinnedStep<T>(cfg: SpoolConfig, q: seq<Entry<T>>, k: nat)
    requires |Onset(cfg, q)| + k <= |q|
    ensures var t, r := Thinned(cfg, q, k), cfg.onsetReserve;
      && |t| == |q| - k
      && (|t| <= r ==> |Onset(cfg, q)| + k == |q|)
      && (|t| > r ==> |Onset(cfg, q)| + k < |q| && t[..r] + t[r + 1..] == Thinned(cfg, q, k + 1))
  {
    var t, r := Thinned(cfg, q, k), cfg.onsetReserve;
    if |t| > r {
      assert |Onset(cfg, q)| == r;
      assert t[..r] == Onset(cfg, q) && t[r + 1..] == q[r + k + 1..];
    }
  }

  /** How many entries a newcomer of this size evicts, having evicted `from`. */
  function Evictions<T>(cfg: SpoolConfig, q: seq<Entry<T>>, incoming: nat, from: nat): (k: nat)
    requires |Onset(cfg, q)| + from <= |q|
    ensures from <= k && |Onset(cfg, q)| + k <= |q|
    decreases |q| - from
  {
    if WouldExceed(cfg, Thinned(cfg, q, from), incoming) && |Onset(cfg, q)| + from < |q| then
      Evictions(cfg, q, incoming, from + 1)
    else
      from
  }

  /** As few as will do, or all the unprotected ones when nothing will. */
  lemma {:induction false} EvictionsAreFewest<T>(cfg: SpoolConfig, q: seq<Entry<T>>, incoming: nat, from: nat, i: nat)
    requires |Onset(cfg, q)| + from <= |q|
    ensures var k := Evictions(cfg, q, incoming, from);
      && (from <= i < k ==> WouldExceed(cfg, Thinned(cfg, q, i), incoming))
      && (WouldExceed(cfg, Thinned(cfg, q, k), incoming) ==> |Onset(cfg, q)| + k == |q|)
    decreases |q| - from
  {
    if WouldExceed(cfg, Thinned(cfg, q, from), incoming) && |Onset(cfg, q)| + from < |q| {
      EvictionsAreFewest(cfg, q, incoming, from + 1, i);
    }
  }

  /** A newcomer is turned away exactly when it does not fit beside the protected
      entries alone. */
  predicate Refuses<T>(cfg: SpoolConfig, q: seq<Entry<T>>, incoming: nat) {
    WouldExceed(cfg, Onset(cfg, q), incoming)
  }

  lemma RefusedIffNothingHelps<T>(cfg: SpoolConfig, q: seq<Entry<T>>, incoming: nat)
    ensures Refuses(cfg, q, incoming) <==> WouldExceed(cfg, Thinned(cfg, q, Evictions(cfg, q, incoming, 0)), incoming)
    ensures Refuses(cfg, q, incoming) ==> Thinned(cfg, q, Evictions(cfg, q, incoming, 0)) == Onset(cfg, q)
  {
    var k, all := Evictions(cfg, q, incoming, 0), |q| - |Onset(cfg, q)|;
    EvictionsAreFewest(cfg, q, incoming, 0, 0);
    assert Thinned(cfg, q, all) == Onset(cfg, q);
    ThinnedSize(cfg, q, k, all);
  }

  /** The queue after a push, accepted or not. */
  function Pushed<T>(cfg: SpoolConfig, q: seq<Entry<T>>, e: Entry<T>): seq<Entry<T>> {
    Thinned(cfg, q, Evictions(cfg, q, e.bytes, 0)) + if Refuses(cfg, q, e.bytes) then [] else [e]
  }

  /** What a push does, from first principles. The first entries, as many as the reserve,
      are never touched; of the others the `k` oldest go, no more than it takes for the
      newcomer to fit under both ceilings; and if it still does not, all of them go and
      so does the newcomer. `i` is any smaller number of evictions. */
  lemma PushExactly<T>(cfg: SpoolConfig, q: seq<Entry<T>>, e: Entry<T>, i: nat) returns (k: nat)
    ensures var r := if cfg.onsetReserve < |q| then cfg.onsetReserve else |q|;
      && r + k <= |q|
      && (i < k ==> |q| - i >= cfg.maxEntries || Size(q[..r] + q[r + i..]) + e.bytes > cfg.maxBytes)
      && var left := q[..r] + q[r + k..];
      if |left| < cfg.maxEntries && Size(left) + e.bytes <= cfg.maxBytes then Pushed(cfg, q, e) == left + [e]
      else r + k == |q| && Pushed(cfg, q, e) == q[..r]
  {
    k := Evictions(cfg, q, e.bytes, 0);
    ThinnedIs(cfg, q, k);
    if i < k {
      ThinnedIs(cfg, q, i);
      EvictionsAreFewest(cfg, q, e.bytes, 0, i);
    }
    PushEither(cfg, q, e);
  }

  lemma ThinnedIs<T>(cfg: SpoolConfig, q: seq<Entry<T>>, k: nat)
    requires |Onset(cfg, q)| + k <= |q|
    ensures var r := if cfg.onsetReserve < |q| then cfg.onsetReserve else |q|;
      r == |Onset(cfg, q)| && Onset(cfg, q) == q[..r] && Thinned(cfg, q, k) == q[..r] + q[r + k..]
  {
  }

  lemma PushEither<T>(cfg: SpoolConfig, q: seq<Entry<T>>, e: Entry<T>)
    ensures var k := Evictions(cfg, q, e.bytes, 0);
      var t := Thinned(cfg, q, k);
      if |t| < cfg.maxEntries && Size(t) + e.bytes <= cfg.maxBytes then Pushed(cfg, q, e) == t + [e]
      else |Onset(cfg, q)| + k == |q| && Pushed(cfg, q, e) == Onset(cfg, q)
  {
    PushSettles(cfg, q, e);
    RefusedIffNothingHelps(cfg, q, e.bytes);
    EvictionsAreFewest(cfg, q, e.bytes, 0, 0);
  }

  /** Where the eviction loop stops, the push is settled. */
  lemma PushSettles<T>(cfg: SpoolConfig, q: seq<Entry<T>>, e: Entry<T>)
    ensures var t := Thinned(cfg, q, Evictions(cfg, q, e.bytes, 0));
      && (Refuses(cfg, q, e.bytes) <==> WouldExceed(cfg, t, e.bytes))
      && Pushed(cfg, q, e) == if Refuses(cfg, q, e.bytes) then t else t + [e]
  {
    RefusedIffNothingHelps(cfg, q, e.bytes);
    var t := Thinned(cfg, q, Evictions(cfg, q, e.bytes, 0));
    assert t + [] == t;
  }

  /** The longest prefix that fits under both ceilings. */
  function FittingPrefix<T>(cfg: SpoolConfig, s: seq<Entry<T>>): (p: seq<Entry<T>>)
    ensures p <= s && Fits(cfg, p)
  {
    if Fits(cfg, s) then s else FittingPrefix(cfg, s[..|s| - 1])
  }

  lemma PrefixFits<T>(cfg: SpoolConfig, s: seq<Entry<T>>, n: nat)
    requires n <= |s| && Fits(cfg, s)
    ensures Fits(cfg, s[..n])
  {
    assert s == s[..n] + s[n..];
    SizeConcat(s[..n], s[n..]);
  }

  lemma {:induction false} FittingPrefixIsLongest<T>(cfg: SpoolConfig, s: seq<Entry<T>>, n: nat)
    requires n <= |s|
    ensures Fits(cfg, s[..n]) <==> n <= |FittingPrefix(cfg, s)|
  {
    if Fits(cfg, s) {
      PrefixFits(cfg, s, n);
    } else if n == |s| {
      assert s[..n] == s;
    } else {
      var t := s[..|s| - 1];
      assert t[..n] == s[..n];
      FittingPrefixIsLongest(cfg, t, n);
    }
  }

  /** The queue after giving back an unsent batch. */
  function Readmitted<T>(cfg: SpoolConfig, batch: seq<Entry<T>>, q: seq<Entry<T>>): seq<Entry<T>> {
    if batch == [] then q
    else if !Fits(cfg, [batch[0]]) then [batch[0]]
    else FittingPrefix(cfg, batch + q)
  }

  lemma AdmitsIffFits<T>(cfg: SpoolConfig, e: Entry<T>, p: seq<Entry<T>>)
    ensures !WouldExceed(cfg, p, e.bytes) <==> Fits(cfg, [e] + p)
    ensures Fits(cfg, [e] + p) ==> Fits(cfg, [e]) && Fits(cfg, p)
  {
    SizeConcat([e], p);
    SizeOne(e);
  }

  lemma ReadmittedMaximal<T>(cfg: SpoolConfig, batch: seq<Entry<T>>, q: seq<Entry<T>>)
    ensures var w := Readmitted(cfg, batch, q);
      w <= batch + q && (|w| < |batch + q| ==> !Fits(cfg, (batch + q)[..|w| + 1]))
  {
    var s := batch + q;
    if batch == [] {
      assert s == q;
    } else if !Fits(cfg, [batch[0]]) {
      assert s[..1] == [batch[0]];
      if |s| > 1 {
        assert s[..2] == [batch[0]] + s[1..2];
        AdmitsIffFits(cfg, batch[0], s[1..2]);
      }
    } else {
      var w := FittingPrefix(cfg, s);
      if |w| < |s| {
        FittingPrefixIsLongest(cfg, s, |w| + 1);
      }
    }
  }

  /** Giving back one more entry keeps as much of what follows as still fits. */
  lemma ReadmitOne<T>(cfg: SpoolConfig, e: Entry<T>, rest: seq<Entry<T>>, q: seq<Entry<T>>, n: nat)
    requires n <= |Readmitted(cfg, rest, q)|
    requires var w := Readmitted(cfg, rest, q);
      && (n > 0 ==> !WouldExceed(cfg, w[..n], e.bytes))
      && (n < |w| ==> WouldExceed(cfg, w[..n + 1], e.bytes))
    ensures Readmitted(cfg, [e] + rest, q) == [e] + Readmitted(cfg, rest, q)[..n]
  {
    var w, t := Readmitted(cfg, rest, q), rest + q;
    ReadmittedMaximal(cfg, rest, q);
    AdmitsIffFits(cfg, e, w[..n]);
    assert w[..n] == t[..n];
    if Fits(cfg, [e]) {
      if n < |t| {
        AdmitsIffFits(cfg, e, t[..n + 1]);
        assert n < |w| ==> t[..n + 1] == w[..n + 1];
      }
      assert n == 0 ==> [e] + t[..n] == [e];
      LongestWith(cfg, e, t, n);
      assert ([e] + rest) + q == [e] + t;
    } else {
      assert n == 0;
    }
  }

  lemma LongestWith<T>(cfg: SpoolConfig, e: Entry<T>, t: seq<Entry<T>>, n: nat)
    requires n <= |t| && Fits(cfg, [e] + t[..n])
    requires n < |t| ==> !Fits(cfg, [e] + t[..n + 1])
    ensures FittingPrefix(cfg, [e] + t) == [e] + t[..n]
  {
    var s := [e] + t;
    assert s[..n + 1] == [e] + t[..n];
    FittingPrefixIsLongest(cfg, s, n + 1);
    if n < |t| {
      assert s[..n + 2] == [e] + t[..n + 1];
      FittingPrefixIsLongest(cfg, s, n + 2);
    }
  }

  // The spool ----------------------------------------------------------------------------

  class Spool<T> {
    const cfg: SpoolConfig
    var entries: seq<Entry<T>>
    var bytes: nat
    var dropped: nat
    var droppedTotal: nat

    ghost predicate Valid()
      reads this
    {
      bytes == Size(entries)
    }

    constructor (cfg: SpoolConfig)
      ensures Valid() && this.cfg == cfg && entries == [] && dropped == droppedTotal == 0
    {
      this.cfg := cfg;
      entries, bytes, dropped, droppedTotal := [], 0, 0, 0;
    }

    predicate IsFull(incoming: nat)
      requires Valid()
      reads this
      ensures IsFull(incoming) == WouldExceed(cfg, entries, incoming)
    {
      |entries| >= cfg.maxEntries || bytes + incoming > cfg.maxBytes
    }

    /** Forget the entry at `i`, counting it as dropped. */
    method Discard(i: nat)
      requires Valid() && i < |entries|
      modifies this
      ensures Valid() && entries == old(entries)[..i] + old(entries)[i + 1..]
      ensures dropped == old(dropped) + 1 && droppedTotal == old(droppedTotal) + 1
    {
      SizeConcat(entries[..i], entries[i + 1..]);
      assert entries == (entries[..i] + [entries[i]]) + entries[i + 1..];
      SizeConcat(entries[..i] + [entries[i]], entries[i + 1..]);
      SizeConcat(entries[..i], [entries[i]]);
      SizeOne(entries[i]);
      bytes := bytes - entries[i].bytes;
      entries := entries[..i] + entries[i + 1..];
      dropped := dropped + 1;
      droppedTotal := droppedTotal + 1;
    }

    method Append(e: Entry<T>)
      requires Valid()
      modifies this
      ensures Valid() && entries == old(entries) + [e]
      ensures dropped == old(dropped) && droppedTotal == old(droppedTotal)
    {
      SizeConcat(entries, [e]);
      SizeOne(e);
      bytes := bytes + e.bytes;
      entries := entries + [e];
    }

    method Prepend(e: Entry<T>)
      requires Valid()
      modifies this
      ensures Valid() && entries == [e] + old(entries)
      ensures dropped == old(dropped) && droppedTotal == old(droppedTotal)
    {
      SizeConcat([e], entries);
      SizeOne(e);
      bytes := bytes + e.bytes;
      entries := [e] + entries;
    }

    /** Evict the oldest unprotected entries until the newcomer fits or only
        protected ones are left. */
    method MakeRoom(size: nat) returns (evicted: nat, room: bool)
      requires Valid()
      modifies this
      ensures Valid() && evicted == Evictions(cfg, old(entries), size, 0)
      ensures entries == Thinned(cfg, old(entries), evicted)
      ensures room == !WouldExceed(cfg, entries, size)
      ensures dropped == old(dropped) + evicted && droppedTotal == old(droppedTotal) + evicted
    {
      evicted := 0;
      ghost var q := entries;
      ghost var k := Evictions(cfg, q, size, 0);
      assert Thinned(cfg, q, 0) == q;
      while IsFull(size)
        invariant Valid() && evicted <= k && entries == Thinned(cfg, q, evicted)
        invariant dropped == old(dropped) + evicted && droppedTotal == old(droppedTotal) + evicted
        decreases |entries|
      {
        ThinnedStep(cfg, q, evicted);
        EvictionsAreFewest(cfg, q, size, 0, evicted);
        if |entries| <= cfg.onsetReserve {
          return evicted, false;
        }
        Discard(cfg.onsetReserve);
        evicted := evicted + 1;
      }
      EvictionsAreFewest(cfg, q, size, 0, evicted);
      room := true;
    }

    method Push(item: T, size: nat) returns (outcome: Accepted)
      requires Valid()
      modifies this
      ensures Valid() && entries == Pushed(cfg, old(entries), Entry(item, size))
      ensures var lost := |old(entries)| + 1 - |entries|;
        lost >= 0 && dropped == old(dropped) + lost && droppedTotal == old(droppedTotal) + lost
      ensures outcome.Rejected? <==> Refuses(cfg, old(entries), size)
      ensures !outcome.Rejected? ==>
        var lost := |old(entries)| + 1 - |entries|;
        && entries != [] && entries[|entries| - 1] == Entry(item, size)
        && outcome == if lost == 0 then Queued else QueuedEvicting(lost)
      ensures var k := Evictions(cfg, old(entries), size, 0);
        !outcome.Rejected? ==> outcome == if k == 0 then Queued else QueuedEvicting(k)
    {
      ghost var q := entries;
      var evicted, room := MakeRoom(size);
      ThinnedStep(cfg, q, evicted);
      PushSettles(cfg, q, Entry(item, size));
      if !room {
        dropped := dropped + 1;
        droppedTotal := droppedTotal + 1;
        return Rejected;
      }
      Append(Entry(item, size));
      return if evicted == 0 then Queued else QueuedEvicting(evicted);
    }

    method Take(max: nat) returns (out: seq<T>)
      requires Valid()
      modifies this
      ensures Valid() && dropped == old(dropped) && droppedTotal == old(droppedTotal)
      ensures var n := if max < |old(entries)| then max else |old(entries)|;
        entries == old(entries)[n..] && |out| == n && forall i :: 0 <= i < n ==> out[i] == old(entries)[i].item
    {
      var n := if max < |entries| then max else |entries|;
      ghost var q := entries;
      out := [];
      for i := 0 to n
        invariant Valid() && entries == q[i..] && |out| == i
        invariant forall k :: 0 <= k < i ==> out[k] == q[k].item
        invariant dropped == old(dropped) && droppedTotal == old(droppedTotal)
      {
        assert |entries| == |q| - i;
        var e := entries[0];
        assert entries == [e] + entries[1..];
        SizeConcat([e], entries[1..]);
        SizeOne(e);
        bytes := bytes - e.bytes;
        entries := entries[1..];
        out := out + [e.item];
      }
    }

    /** Evict from the back until an entry of this size fits, or nothing is left. */
    method MakeRoomAtBack(size: nat)
      requires Valid()
      modifies this
      ensures Valid() && entries <= old(entries)
      ensures entries != [] ==> !WouldExceed(cfg, entries, size)
      ensures |entries| < |old(entries)| ==> WouldExceed(cfg, old(entries)[..|entries| + 1], size)
      ensures var lost := |old(entries)| - |entries|;
        dropped == old(dropped) + lost && droppedTotal == old(droppedTotal) + lost
    {
      ghost var w := entries;
      while IsFull(size) && entries != []
        invariant Valid() && |entries| <= |w| && entries == w[..|entries|]
        invariant |entries| < |w| ==> WouldExceed(cfg, w[..|entries| + 1], size)
        invariant dropped == old(dropped) + (|w| - |entries|) && droppedTotal == old(droppedTotal) + (|w| - |entries|)
        decreases |entries|
      {
        Discard(|entries| - 1);
      }
    }

    method ReturnUnsent(items: seq<(T, nat)>)
      requires Valid()
      modifies this
      ensures Valid() && entries == Readmitted(cfg, Sized(items), old(entries))
      ensures var lost := |items| + |old(entries)| - |entries|;
        lost >= 0 && dropped == old(dropped) + lost && droppedTotal == old(droppedTotal) + lost
    {
      ghost var q, batch := entries, Sized(items);
      var i := |items|;
      assert batch[i..] == [];
      while i > 0
        invariant 0 <= i <= |items| && Valid()
        invariant entries == Readmitted(cfg, batch[i..], q)
        invariant var lost := |items| - i + |q| - |entries|;
          lost >= 0 && dropped == old(dropped) + lost && droppedTotal == old(droppedTotal) + lost
      {
        i := i - 1;
        var e := Entry(items[i].0, items[i].1);
        ghost var w := entries;
        MakeRoomAtBack(e.bytes);
        assert entries == w[..|entries|];
        ReadmitOne(cfg, e, batch[i + 1..], q, |entries|);
        assert batch[i..] == [e] + batch[i + 1..];
        Prepend(e);
      }
      assert batch[0..] == batch;
    }

    method ClearDropped()
      requires Valid()
      modifies this
      ensures Valid() && entries == old(entries) && dropped == 0 && droppedTotal == old(droppedTotal)
    {
      dropped := 0;
    }
  }

  function Sized<T>(items: seq<(T, nat)>): (es: seq<Entry<T>>)
    ensures |es| == |items|
  {
    seq(|items|, i requires 0 <= i < |items| => Entry(items[i].0, items[i].1))
  }

  // What the operations mean -----------------------------------------------------------------

  /** What a push keeps: the onset always, and of the rest the longest suffix that
      leaves room for the newcomer. */
  lemma PushKeepsOnsetAndRecent<T>(cfg: SpoolConfig, q: seq<Entry<T>>, e: Entry<T>, n: nat)
    requires n <= |q| - |Onset(cfg, q)|
    requires !Refuses(cfg, q, e.bytes)
    ensures var suffix := q[|q| - n..];
      Fits(cfg, Onset(cfg, q) + suffix + [e]) <==> |Onset(cfg, q)| + n + 1 <= |Pushed(cfg, q, e)|
    ensures Pushed(cfg, q, e) == Onset(cfg, q) + q[|q| - (|Pushed(cfg, q, e)| - 1 - |Onset(cfg, q)|)..] + [e]
  {
    var k, i := Evictions(cfg, q, e.bytes, 0), |q| - |Onset(cfg, q)| - n;
    assert Thinned(cfg, q, i) == Onset(cfg, q) + q[|q| - n..];
    FitsFrom(cfg, q, e, i);
    assert |Pushed(cfg, q, e)| == |q| - k + 1;
    assert Pushed(cfg, q, e) == Onset(cfg, q) + q[|Onset(cfg, q)| + k..] + [e];
  }

  /** The newcomer fits after just as many evictions as are made, or more. */
  lemma FitsFrom<T>(cfg: SpoolConfig, q: seq<Entry<T>>, e: Entry<T>, i: nat)
    requires |Onset(cfg, q)| + i <= |q| && !Refuses(cfg, q, e.bytes)
    ensures Fits(cfg, Thinned(cfg, q, i) + [e]) <==> i >= Evictions(cfg, q, e.bytes, 0)
  {
    var k, kept := Evictions(cfg, q, e.bytes, 0), Thinned(cfg, q, i);
    RefusedIffNothingHelps(cfg, q, e.bytes);
    SizeConcat(kept, [e]);
    SizeOne(e);
    EvictionsAreFewest(cfg, q, e.bytes, 0, i);
    if i >= k {
      ThinnedSize(cfg, q, k, i);
    }
  }

  /** In a queue within its ceilings, a refusal means that the protected bytes and
      the newcomer exceed the byte ceiling. */
  ghost predicate OnlyBytesRefuse<T(!new)>(cfg: SpoolConfig) {
    forall q: seq<Entry<T>>, incoming: nat :: Fits(cfg, q) ==>
      (Refuses(cfg, q, incoming) <==> Size(Onset(cfg, q)) + incoming > cfg.maxBytes)
  }

  /** Only the byte ceiling refuses, exactly when the reserve is below the entry
      ceiling. */
  lemma RefusedOnlyByBytes<T(!new)>(cfg: SpoolConfig, x: T)
    ensures OnlyBytesRefuse<T>(cfg) <==> cfg.onsetReserve < cfg.maxEntries
  {
    if cfg.onsetReserve >= cfg.maxEntries {
      var q := RefusedWithBytesToSpare(cfg, x);
    }
  }

  /** A full queue of empty entries, all protected, refuses even an empty newcomer. */
  lemma RefusedWithBytesToSpare<T>(cfg: SpoolConfig, x: T) returns (q: seq<Entry<T>>)
    requires cfg.onsetReserve >= cfg.maxEntries
    ensures Fits(cfg, q) && Size(Onset(cfg, q)) == 0 && Refuses(cfg, q, 0)
  {
    q := seq(cfg.maxEntries, _ => Entry(x, 0));
    EmptyEntries(q);
    assert Onset(cfg, q) == q;
  }

  lemma {:induction false} EmptyEntries<T>(q: seq<Entry<T>>)
    requires forall i :: 0 <= i < |q| ==> q[i].bytes == 0
    ensures Size(q) == 0
  {
    if q != [] {
      EmptyEntries(q[..|q| - 1]);
    }
  }

  /** Whatever the queue held, giving back a batch leaves the longest prefix of
      batch and queue that fits, exactly when the first of the batch fits alone; a
      queue already over a ceiling is only cured by giving something back. */
  lemma ReturnKeepsLongestPrefix<T>(cfg: SpoolConfig, batch: seq<Entry<T>>, q: seq<Entry<T>>)
    ensures var w, sound := Readmitted(cfg, batch, q), if batch == [] then Fits(cfg, q) else Fits(cfg, [batch[0]]);
      && w <= batch + q
      && (w == FittingPrefix(cfg, batch + q) <==> sound)
      && (Fits(cfg, w) <==> sound)
  {
    ReadmittedMaximal(cfg, batch, q);
    if batch == [] {
      assert batch + q == q;
    }
  }

  /** Taking a batch and giving it straight back changes nothing. */
  lemma TakeThenReturn<T>(cfg: SpoolConfig, q: seq<Entry<T>>, n: nat)
    requires n <= |q| && Fits(cfg, q)
    ensures Readmitted(cfg, q[..n], q[n..]) == q
  {
    assert q[..n] + q[n..] == q;
    if n == 0 {
      assert q[0..] == q;
    } else {
      PrefixFits(cfg, q, 1);
      assert q[..1] == [q[..n][0]];
    }
  }

  /** A push never leaves a spool over its ceilings. */
  lemma PushFits<T>(cfg: SpoolConfig, q: seq<Entry<T>>, e: Entry<T>)
    requires |q| <= cfg.maxEntries && Size(q) <= cfg.maxBytes
    ensures |Pushed(cfg, q, e)| <= cfg.maxEntries && Size(Pushed(cfg, q, e)) <= cfg.maxBytes
    ensures |Pushed(cfg, q, e)| <= |q| + 1
  {
    var k := Evictions(cfg, q, e.bytes, 0);
    RefusedIffNothingHelps(cfg, q, e.bytes);
    assert Thinned(cfg, q, 0) == q;
    ThinnedSize(cfg, q, 0, k);
    SizeConcat(Thinned(cfg, q, k), [e]);
    SizeOne(e);
    assert Thinned(cfg, q, k) + [] == Thinned(cfg, q, k);
  }

  // A whole outage ------------------------------------------------------------------------------

  /** The queue after some pushes, and everything it was given that it did not refuse:
      what it held at the start, then the results accepted since. */
  datatype Outage<T> = Outage(queue: seq<Entry<T>>, accepted: seq<Entry<T>>)

  function PushAll<T>(cfg: SpoolConfig, q: seq<Entry<T>>, es: seq<Entry<T>>): Outage<T> {
    if es == [] then
      Outage(q, q)
    else
      var before, e := PushAll(cfg, q, es[..|es| - 1]), es[|es| - 1];
      Outage(Pushed(cfg, before.queue, e),
             before.accepted + if Refuses(cfg, before.queue, e.bytes) then [] else [e])
  }

  function Min(a: nat, b: nat): nat {
    if a < b then a else b
  }

  /** `q` is the first of `a`, up to the reserve, then one unbroken run of `a` from
      position `j` to the latest. */
  ghost predicate OneGap<T>(cfg: SpoolConfig, q: seq<Entry<T>>, a: seq<Entry<T>>, j: nat) {
    |Onset(cfg, a)| <= j <= |a| && q == Onset(cfg, a) + a[j..]
  }

  /** After any sequence of pushes into any spool within its ceilings: the first
      results, up to the reserve, and what is happening now, with at most one gap
      between the two. */
  lemma {:induction false} OnsetAndRecentSurvive<T>(cfg: SpoolConfig, q: seq<Entry<T>>, es: seq<Entry<T>>)
    returns (j: nat)
    requires Fits(cfg, q)
    ensures var o := PushAll(cfg, q, es);
      q <= o.accepted && OneGap(cfg, o.queue, o.accepted, j) && Fits(cfg, o.queue)
  {
    if es == [] {
      j := |Onset(cfg, q)|;
    } else {
      var o, e := PushAll(cfg, q, es[..|es| - 1]), es[|es| - 1];
      var i := OnsetAndRecentSurvive(cfg, q, es[..|es| - 1]);
      PushFits(cfg, o.queue, e);
      j := PushKeepsOneGap(cfg, o.queue, o.accepted, e, i);
    }
  }

  lemma PushKeepsOneGap<T>(cfg: SpoolConfig, q: seq<Entry<T>>, a: seq<Entry<T>>, e: Entry<T>, i: nat) returns (j: nat)
    requires OneGap(cfg, q, a, i)
    ensures OneGap(cfg, Pushed(cfg, q, e), a + if Refuses(cfg, q, e.bytes) then [] else [e], j)
  {
    if |a| < cfg.onsetReserve {
      PushWithinReserve(cfg, q, a, e, i);
      j := |a + if Refuses(cfg, q, e.bytes) then [] else [e]|;
    } else {
      j := PushBeyondReserve(cfg, q, a, e, i);
    }
  }

  /** How many of the results accepted after the leftovers `q` the reserve protects. */
  function Protected<T>(cfg: SpoolConfig, q: seq<Entry<T>>, since: seq<Entry<T>>): (n: nat)
    ensures n <= |since|
  {
    Min(if cfg.onsetReserve > |q| then cfg.onsetReserve - |q| else 0, |since|)
  }

  /** Leftovers use up the reserve first; the new results get what remains of it. */
  lemma LeftoversUseTheReserve<T>(cfg: SpoolConfig, q: seq<Entry<T>>, since: seq<Entry<T>>)
    ensures Onset(cfg, q + since) == Onset(cfg, q) + since[..Protected(cfg, q, since)]
  {
  }

  /** Only the reserve protects: of the rest at most the newest `maxEntries` less the
      protected ones are still held. */
  lemma RestIsRecent<T>(cfg: SpoolConfig, q: seq<Entry<T>>, a: seq<Entry<T>>, j: nat)
    requires OneGap(cfg, q, a, j) && Fits(cfg, q)
    ensures |a| - j <= cfg.maxEntries - |Onset(cfg, a)|
  {
  }

  /** What a spool `q` holds of the leftovers `left` and the results `since`: one gap;
      the reserve protects the leftovers first, and of the others only what remains of
      it; beyond the reserve only the newest. */
  ghost predicate HoldsEnds<T>(cfg: SpoolConfig, q: seq<Entry<T>>, left: seq<Entry<T>>, since: seq<Entry<T>>, j: nat) {
    var all := left + since;
    && OneGap(cfg, q, all, j) && Fits(cfg, q)
    && Onset(cfg, all) == Onset(cfg, left) + since[..Protected(cfg, left, since)]
    && |all| - j <= cfg.maxEntries - |Onset(cfg, all)|
  }

  lemma EndsAreHeld<T>(cfg: SpoolConfig, left: seq<Entry<T>>, es: seq<Entry<T>>) returns (since: seq<Entry<T>>, j: nat)
    requires Fits(cfg, left)
    ensures PushAll(cfg, left, es).accepted == left + since
    ensures HoldsEnds(cfg, PushAll(cfg, left, es).queue, left, since, j)
  {
    j := OnsetAndRecentSurvive(cfg, left, es);
    var o := PushAll(cfg, left, es);
    since := o.accepted[|left|..];
    assert o.accepted == left + since;
    LeftoversUseTheReserve(cfg, left, since);
    RestIsRecent(cfg, o.queue, o.accepted, j);
  }

  /** With room for everything, everything is kept. */
  lemma {:induction false} RoomForAll<T>(cfg: SpoolConfig, q: seq<Entry<T>>, es: seq<Entry<T>>)
    requires Fits(cfg, q + es)
    ensures PushAll(cfg, q, es) == Outage(q + es, q + es)
  {
    if es == [] {
      assert q + es == q;
    } else {
      var init, e := es[..|es| - 1], es[|es| - 1];
      assert q + es == (q + init) + [e];
      SizeConcat(q + init, [e]);
      SizeOne(e);
      RoomForAll(cfg, q, init);
      PushWithRoom(cfg, q + init, e);
    }
  }

  lemma {:induction false} PushAllFits<T>(cfg: SpoolConfig, q: seq<Entry<T>>, es: seq<Entry<T>>)
    requires Fits(cfg, q)
    ensures Fits(cfg, PushAll(cfg, q, es).queue)
  {
    if es != [] {
      PushAllFits(cfg, q, es[..|es| - 1]);
      PushFits(cfg, PushAll(cfg, q, es[..|es| - 1]).queue, es[|es| - 1]);
    }
  }

  lemma AcceptedMore<T>(cfg: SpoolConfig, q: seq<Entry<T>>, es: seq<Entry<T>>)
    requires es != [] && !Refuses(cfg, PushAll(cfg, q, es[..|es| - 1]).queue, es[|es| - 1].bytes)
    ensures PushAll(cfg, q, es).accepted == PushAll(cfg, q, es[..|es| - 1]).accepted + [es[|es| - 1]]
  {
  }

  /** Below the entry ceiling a reserve refuses nothing that weighs nothing. */
  lemma {:induction false} WeightlessAccepted<T>(cfg: SpoolConfig, q: seq<Entry<T>>, es: seq<Entry<T>>)
    requires Fits(cfg, q) && cfg.onsetReserve < cfg.maxEntries
    requires forall i :: 0 <= i < |es| ==> es[i].bytes == 0
    ensures PushAll(cfg, q, es).accepted == q + es
  {
    if es == [] {
      assert q + es == q;
    } else {
      var init := es[..|es| - 1];
      WeightlessAccepted(cfg, q, init);
      PushAllFits(cfg, q, init);
      WeightlessFits(cfg, PushAll(cfg, q, init).queue);
      AcceptedMore(cfg, q, es);
      LastOut(q, es);
    }
  }

  lemma LastOut<T>(p: seq<T>, q: seq<T>)
    requires q != []
    ensures p + q == (p + q[..|q| - 1]) + [q[|q| - 1]]
  {
  }

  lemma WeightlessFits<T>(cfg: SpoolConfig, q: seq<Entry<T>>)
    requires Fits(cfg, q) && cfg.onsetReserve < cfg.maxEntries
    ensures !Refuses(cfg, q, 0)
  {
    PrefixFits(cfg, q, |Onset(cfg, q)|);
  }

  lemma PushWithRoom<T>(cfg: SpoolConfig, q: seq<Entry<T>>, e: Entry<T>)
    requires !WouldExceed(cfg, q, e.bytes)
    ensures Pushed(cfg, q, e) == q + [e] && !Refuses(cfg, q, e.bytes)
  {
    assert Thinned(cfg, q, 0) == q;
    PushSettles(cfg, q, e);
  }

  lemma PushWithinReserve<T>(cfg: SpoolConfig, q: seq<Entry<T>>, a: seq<Entry<T>>, e: Entry<T>, j: nat)
    requires OneGap(cfg, q, a, j) && |a| < cfg.onsetReserve
    ensures var a' := a + if Refuses(cfg, q, e.bytes) then [] else [e];
      OneGap(cfg, Pushed(cfg, q, e), a', |a'|)
  {
    assert a[j..] == [] && q == a == Onset(cfg, q);
    var k := Evictions(cfg, q, e.bytes, 0);
    assert k == 0 && Thinned(cfg, q, 0) == q;
    RefusedIffNothingHelps(cfg, q, e.bytes);
    assert a + [] == a;
  }

  lemma PushBeyondReserve<T>(cfg: SpoolConfig, q: seq<Entry<T>>, a: seq<Entry<T>>, e: Entry<T>, j: nat)
    returns (j': nat)
    requires OneGap(cfg, q, a, j) && |a| >= cfg.onsetReserve
    ensures OneGap(cfg, Pushed(cfg, q, e), a + if Refuses(cfg, q, e.bytes) then [] else [e], j')
  {
    assert |q| == cfg.onsetReserve + |a| - j;
    if Refuses(cfg, q, e.bytes) {
      j' := |a|;
      GapShrinks(a, q, cfg.onsetReserve, j, 0);
      RefusedKeepsGap(cfg, q, a, e);
      assert a + [] == a;
    } else {
      j' := j + Evictions(cfg, q, e.bytes, 0);
      AcceptedIs(cfg, q, e, cfg.onsetReserve);
      AcceptedKeepsGap(cfg, q, a, e, j, Evictions(cfg, q, e.bytes, 0), Pushed(cfg, q, e));
    }
  }

  lemma RefusedKeepsGap<T>(cfg: SpoolConfig, q: seq<Entry<T>>, a: seq<Entry<T>>, e: Entry<T>)
    requires Refuses(cfg, q, e.bytes) && cfg.onsetReserve <= |a| && Onset(cfg, q) == a[..cfg.onsetReserve]
    ensures OneGap(cfg, Pushed(cfg, q, e), a, |a|)
  {
    var on := Onset(cfg, q);
    RefusedIffNothingHelps(cfg, q, e.bytes);
    assert a[|a|..] == [] && on + [] == on;
  }

  lemma AcceptedKeepsGap<T>(cfg: SpoolConfig, q: seq<Entry<T>>, a: seq<Entry<T>>, e: Entry<T>, j: nat,
      k: nat, p: seq<Entry<T>>)
    requires var r := cfg.onsetReserve;
      && r <= j <= |a| && q == a[..r] + a[j..]
      && r + k <= |q| && p == (q[..r] + q[r + k..]) + [e]
    ensures OneGap(cfg, p, a + [e], j + k)
  {
    GapAfter(a, q, e, cfg.onsetReserve, j, k);
    GapIs(cfg, p, a + [e], j + k);
  }

  lemma AcceptedIs<T>(cfg: SpoolConfig, q: seq<Entry<T>>, e: Entry<T>, r: nat)
    requires r == cfg.onsetReserve <= |q| && !Refuses(cfg, q, e.bytes)
    ensures var k := Evictions(cfg, q, e.bytes, 0);
      r + k <= |q| && Pushed(cfg, q, e) == (q[..r] + q[r + k..]) + [e]
  {
  }

  lemma GapIs<T>(cfg: SpoolConfig, q: seq<Entry<T>>, a: seq<Entry<T>>, j: nat)
    requires cfg.onsetReserve <= j <= |a| && q == a[..cfg.onsetReserve] + a[j..]
    ensures OneGap(cfg, q, a, j)
  {
  }

  lemma GapAfter<T>(a: seq<Entry<T>>, q: seq<Entry<T>>, e: Entry<T>, r: nat, j: nat, k: nat)
    requires r <= j <= |a| && q == a[..r] + a[j..] && r + k <= |q|
    ensures (q[..r] + q[r + k..]) + [e] == (a + [e])[..r] + (a + [e])[j + k..]
  {
    GapShrinks(a, q, r, j, k);
    GapExtends(a, e, r, j + k);
  }

  lemma GapShrinks<T>(a: seq<Entry<T>>, q: seq<Entry<T>>, r: nat, j: nat, k: nat)
    requires r <= j <= |a| && q == a[..r] + a[j..] && r + k <= |q|
    ensures q[..r] == a[..r] && q[r + k..] == a[j + k..]
  {
  }

  lemma GapExtends<T>(a: seq<Entry<T>>, e: Entry<T>, r: nat, j: nat)
    requires r <= j <= |a|
    ensures (a + [e])[..r] + (a + [e])[j..] == (a[..r] + a[j..]) + [e]
  {
  }
}
