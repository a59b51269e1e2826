/**
 Choosing the next key of a multi-key channel (model/channel.go).

 In polling mode the search starts at the saved index and wraps around; polling is
 shown to serve the enabled keys round robin.
 */
module KeyPolling {
  import opened KeyText
  import opened MultiKey

  datatype Mode = Random | Polling | Other

  /** The enabled indices from `lo` up to `hi`, in order. */
  function EnabledFrom(status: map<int, int>, lo: nat, hi: nat): seq<nat>
    requires lo <= hi
    decreases hi - lo
  {
    if lo == hi then []
    else if StatusAt(status, lo) == ENABLED then [lo] + EnabledFrom(status, lo + 1, hi)
    else EnabledFrom(status, lo + 1, hi)
  }

  lemma {:induction false} EnabledMember(status: map<int, int>, lo: nat, hi: nat, i: nat)
    requires lo <= hi
    ensures i in EnabledFrom(status, lo, hi) <==> lo <= i < hi && StatusAt(status, i) == ENABLED
    decreases hi - lo
  {
    if lo < hi {
      EnabledMember(status, lo + 1, hi, i);
    }
  }

  lemma {:induction false} EnabledSplit(status: map<int, int>, lo: nat, mid: nat, hi: nat)
    requires lo <= mid <= hi
    ensures EnabledFrom(status, lo, hi) == EnabledFrom(status, lo, mid) + EnabledFrom(status, mid, hi)
    decreases mid - lo
  {
    if lo < mid {
      EnabledSplit(status, lo + 1, mid, hi);
    }
  }

  /** The enabled indices in the order a search from `start` meets them. */
  function Rotation(status: map<int, int>, n: nat, start: nat): seq<nat>
    requires start <= n
  {
    EnabledFrom(status, start, n) + EnabledFrom(status, 0, start)
  }

  /** Where the search starts: an index out of range counts as 0. */
  function Start(index: int, n: nat): (start: nat)
    requires n > 0
    ensures start < n && (start == index || start == 0)
    ensures index < 0 || index >= n ==> start == 0
  {
    if 0 <= index < n then index else 0
  }

  /** The index `d` places after `start`, wrapping around. */
  function Cyclic(start: nat, d: nat, n: nat): (i: nat)
    requires n > 0
    ensures i < n
  {
    (start + d) % n
  }

  /** `i` is the first enabled index from `start` on, wrapping around. */
  ghost predicate FirstFrom(status: map<int, int>, n: nat, start: nat, i: nat)
    requires n > 0
  {
    && StatusAt(status, i) == ENABLED
    && exists d :: 0 <= d < n && i == Cyclic(start, d, n)
                   && forall e :: 0 <= e < d ==> StatusAt(status, Cyclic(start, e, n)) != ENABLED
  }

  class Pool {
    const multi: bool
    const text: string
    const keys: seq<string>
    const mode: Mode
    var status: map<int, int>
    var index: int

    constructor (multi: bool, text: string, keys: seq<string>, mode: Mode, status: map<int, int>, index: int)
      ensures this.multi == multi && this.text == text
      ensures this.keys == keys && this.mode == mode && this.status == status && this.index == index
    {
      this.multi, this.text := multi, text;
      this.keys, this.mode, this.status, this.index := keys, mode, status, index;
    }

    /** `GetNextEnabledKey`; `pick` chooses among `m` enabled keys, and the saved index may be unreadable. */
    method Next(pick: nat -> nat, readable: bool) returns (r: Option<(string, nat)>)
      requires forall m :: m > 0 ==> pick(m) < m
      modifies this`index
      ensures !multi ==> r == Some((text, 0)) && index == old(index)
      ensures r.None? <==> multi && (!HasEnabled(|keys|, status) || (mode == Polling && !readable))
      ensures multi && r.Some? ==>
          r.value.1 < |keys| && r.value.0 == keys[r.value.1] && StatusAt(status, r.value.1) == ENABLED
      ensures multi && r.Some? && mode == Polling ==>
                && Rotation(status, |keys|, Start(old(index), |keys|)) != []
                && r.value.1 == Rotation(status, |keys|, Start(old(index), |keys|))[0]
                && FirstFrom(status, |keys|, Start(old(index), |keys|), r.value.1)
                && index == (r.value.1 + 1) % |keys|
      ensures multi && r.Some? && mode == Other ==> forall i :: 0 <= i < r.value.1 ==> StatusAt(status, i) != ENABLED
      ensures r.None? || mode != Polling ==> index == old(index)
    {
      if !multi {
        return Some((text, 0));
      }
      var n := |keys|;
      if n == 0 {
        return None;
      }
      var enabled := CollectEnabled(n, status);
      if enabled == [] {
        forall i | 0 <= i < n
          ensures StatusAt(status, i) != ENABLED
        {
          EnabledMember(status, 0, n, i);
        }
        return None;
      }
      EnabledMember(status, 0, n, enabled[0]);
      match mode
      case Random =>
        var chosen := enabled[pick(|enabled|)];
        EnabledMember(status, 0, n, chosen);
        return Some((keys[chosen], chosen));
      case Polling =>
        if !readable {
          return None;
        }
        var chosen := Search(n, status, Start(index, n));
        EnabledMember(status, 0, n, chosen);
        index := (chosen + 1) % n;
        return Some((keys[chosen], chosen));
      case Other =>
        forall i | 0 <= i < enabled[0]
          ensures StatusAt(status, i) != ENABLED
        {
          SmallestFirst(status, 0, n);
          EnabledMember(status, 0, n, i);
        }
        return Some((keys[enabled[0]], enabled[0]));
    }
  }

  lemma {:induction false} SmallestFirst(status: map<int, int>, lo: nat, hi: nat)
    requires lo <= hi
    ensures forall i :: i in EnabledFrom(status, lo, hi) ==> EnabledFrom(status, lo, hi)[0] <= i
    decreases hi - lo
  {
    if lo < hi {
      SmallestFirst(status, lo + 1, hi);
      forall i | i in EnabledFrom(status, lo, hi)
        ensures lo <= i
      {
        EnabledMember(status, lo, hi, i);
      }
    }
  }

  method CollectEnabled(n: nat, status: map<int, int>) returns (enabled: seq<nat>)
    ensures enabled == EnabledFrom(status, 0, n)
  {
    enabled := [];
    var i := 0;
    while i < n
      invariant 0 <= i <= n && enabled == EnabledFrom(status, 0, i)
    {
      EnabledSplit(status, 0, i, i + 1);
      assert EnabledFrom(status, i + 1, i + 1) == [];
      if StatusAt(status, i) == ENABLED {
        enabled := enabled + [i];
      }
      i := i + 1;
    }
  }

  /** The polling loop: the first enabled index from `start` on, wrapping around. */
  method Search(n: nat, status: map<int, int>, start: nat) returns (chosen: nat)
    requires start < n && EnabledFrom(status, 0, n) != []
    ensures Rotation(status, n, start) != [] && chosen == Rotation(status, n, start)[0] && chosen < n
    ensures FirstFrom(status, n, start, chosen)
  {
    chosen := 0;
    var i := 0;
    while i < n
      invariant 0 <= i <= n
      invariant forall e :: 0 <= e < i ==> StatusAt(status, Cyclic(start, e, n)) != ENABLED
      invariant start + i <= n ==> EnabledFrom(status, start, start + i) == []
      invariant start + i > n ==> EnabledFrom(status, start, n) == [] && EnabledFrom(status, 0, start + i - n) == []
    {
      var idx := Cyclic(start, i, n);
      Wraps(start, i, n);
      if StatusAt(status, idx) == ENABLED {
        if start + i < n {
          EnabledSplit(status, start, idx, n);
        } else {
          EnabledSplit(status, 0, idx, start);
          assert EnabledFrom(status, start, n) == [];
        }
        assert 0 <= i < n && idx == Cyclic(start, i, n);
        return idx;
      }
      if start + i < n {
        EnabledSplit(status, start, idx, idx + 1);
      } else {
        EnabledSplit(status, 0, idx, idx + 1);
      }
      i := i + 1;
    }
    EnabledSplit(status, 0, start, n);
    assert false;
  }

  lemma Wraps(start: nat, i: nat, n: nat)
    requires start < n && i < n
    ensures (start + i) % n == if start + i < n then start + i else start + i - n
  {
    if start + i >= n {
      assert (start + i - n) % n == start + i - n;
      assert start + i == 1 * n + (start + i - n);
    }
  }

  // ---------------------------------------------------------------------------
  // Round robin
  // ---------------------------------------------------------------------------

  /** The index saved after one poll. */
  function After(status: map<int, int>, n: nat, start: nat): (next: nat)
    requires start < n
    ensures next < n
  {
    var order := Rotation(status, n, start);
    if order == [] then start else (order[0] + 1) % n
  }

  /** One poll moves the served key to the end of the order. */
  lemma PollRotates(status: map<int, int>, n: nat, start: nat)
    requires start < n && Rotation(status, n, start) != []
    ensures var order := Rotation(status, n, start);
            Rotation(status, n, After(status, n, start)) == order[1..] + [order[0]]
  {
    var ahead, behind := EnabledFrom(status, start, n), EnabledFrom(status, 0, start);
    if ahead != [] {
      FirstEnabled(status, start, n);
      ServedAhead(status, n, start, ahead[0]);
    } else {
      FirstEnabled(status, 0, start);
      ServedBehind(status, n, start, behind[0]);
    }
  }

  /** The first enabled index splits the range: nothing before it, the rest after it. */
  lemma {:induction false} FirstEnabled(status: map<int, int>, lo: nat, hi: nat)
    requires lo <= hi && EnabledFrom(status, lo, hi) != []
    ensures var first := EnabledFrom(status, lo, hi)[0];
            && lo <= first < hi && StatusAt(status, first) == ENABLED
            && EnabledFrom(status, lo, first) == []
            && EnabledFrom(status, lo, hi)[1..] == EnabledFrom(status, first + 1, hi)
    decreases hi - lo
  {
    if StatusAt(status, lo) != ENABLED {
      FirstEnabled(status, lo + 1, hi);
    }
  }

  /** Nothing between the start and the served key is enabled. */
  lemma UpToServed(status: map<int, int>, start: nat, first: nat)
    requires start <= first && StatusAt(status, first) == ENABLED && EnabledFrom(status, start, first) == []
    ensures EnabledFrom(status, 0, first + 1) == EnabledFrom(status, 0, start) + [first]
  {
    EnabledSplit(status, 0, start, first + 1);
    EnabledSplit(status, start, first, first + 1);
    assert EnabledFrom(status, first + 1, first + 1) == [];
  }

  lemma ServedAhead(status: map<int, int>, n: nat, start: nat, first: nat)
    requires start <= first < n && StatusAt(status, first) == ENABLED && EnabledFrom(status, start, first) == []
    ensures Rotation(status, n, (first + 1) % n)
         == EnabledFrom(status, first + 1, n) + EnabledFrom(status, 0, start) + [first]
  {
    UpToServed(status, start, first);
    if first + 1 == n {
      assert (first + 1) % n == 0;
      assert EnabledFrom(status, 0, 0) == [] && EnabledFrom(status, n, n) == [];
    } else {
      assert (first + 1) % n == first + 1;
      hide EnabledFrom;
      var rest, before := EnabledFrom(status, first + 1, n), EnabledFrom(status, 0, start);
      assert rest + (before + [first]) == rest + before + [first];
    }
  }

  lemma ServedBehind(status: map<int, int>, n: nat, start: nat, first: nat)
    requires first < start < n && StatusAt(status, first) == ENABLED
    requires EnabledFrom(status, 0, first) == [] && EnabledFrom(status, start, n) == []
    ensures Rotation(status, n, (first + 1) % n) == EnabledFrom(status, first + 1, start) + [first]
  {
    EnabledSplit(status, 0, first, first + 1);
    EnabledSplit(status, first + 1, start, n);
    assert EnabledFrom(status, first + 1, first + 1) == [];
    assert (first + 1) % n == first + 1;
  }

  /** The saved index after `k` polls. */
  function Polled(status: map<int, int>, n: nat, start: nat, k: nat): (index: nat)
    requires start < n
    ensures index < n
  {
    if k == 0 then start else After(status, n, Polled(status, n, start, k - 1))
  }

  /** Position of poll `k` within a round of `m`. */
  function Turn(k: nat, m: nat): (at: nat)
    requires m > 0
    ensures at < m
  {
    k % m
  }

  lemma {:induction false} PolledOrder(status: map<int, int>, n: nat, start: nat, k: nat)
    requires start < n && Rotation(status, n, start) != []
    ensures var order := Rotation(status, n, start);
            var at := Turn(k, |order|);
            Rotation(status, n, Polled(status, n, start, k)) == order[at..] + order[..at]
  {
    hide Rotation;
    var order := Rotation(status, n, start);
    if k == 0 {
      assert Turn(0, |order|) == 0;
    } else {
      hide Turn;
      PolledOrder(status, n, start, k - 1);
      PollRotates(status, n, Polled(status, n, start, k - 1));
      NextTurn(k - 1, |order|);
      OneFurther(order, Turn(k - 1, |order|));
    }
  }

  lemma OneFurther(order: seq<nat>, at: nat)
    requires at < |order|
    ensures var turned, next := order[at..] + order[..at], if at + 1 == |order| then 0 else at + 1;
            turned != [] && turned[1..] + [turned[0]] == order[next..] + order[..next]
  {
  }

  lemma NextTurn(k: nat, m: nat)
    requires m > 0
    ensures Turn(k + 1, m) == if Turn(k, m) + 1 == m then 0 else Turn(k, m) + 1
  {
    var q, r := k / m, k % m;
    var goal := if r + 1 == m then 0 else r + 1;
    var d := if r + 1 == m then q + 1 else q;
    assert d * m + goal == k + 1 by {
      assert k == q * m + r;
      assert (q + 1) * m == q * m + m;
    }
    SameRemainder(d, goal, k + 1, m);
  }

  lemma SameRemainder(d: int, r: nat, x: nat, m: nat)
    requires r < m && d * m + r == x
    ensures x % m == r
  {
    var e := x / m - d;
    assert e * m == (x / m) * m - d * m;
    assert (x / m) * m + x % m == x;
    Small(e, m, r - x % m);
  }

  lemma Small(e: int, m: nat, y: int)
    requires e * m == y && 0 - m < y < m
    ensures y == 0
  {
    Large(e, m);
  }

  lemma Large(e: int, m: nat)
    ensures e == 0 || e * m >= m || e * m <= 0 - m
  {
    if e >= 1 {
      assert (e - 1) * m >= 0;
    } else if e <= -1 {
      assert (-1 - e) * m >= 0;
    }
  }

  /** While the statuses stay as they are, poll number `k` serves the enabled keys round robin. */
  lemma RoundRobin(status: map<int, int>, n: nat, start: nat, k: nat)
    requires start < n && Rotation(status, n, start) != []
    ensures var order := Rotation(status, n, start);
            && Rotation(status, n, Polled(status, n, start, k)) != []
            && Rotation(status, n, Polled(status, n, start, k))[0] == order[Turn(k, |order|)]
  {
    PolledOrder(status, n, start, k);
  }

  lemma HasEnabledRotates(status: map<int, int>, n: nat, start: nat)
    requires start < n && HasEnabled(n, status)
    ensures Rotation(status, n, start) != []
  {
    var i :| 0 <= i < n && StatusAt(status, i) == ENABLED;
    EnabledMember(status, start, n, i);
    EnabledMember(status, 0, start, i);
  }

  lemma PolledNext(status: map<int, int>, n: nat, start: nat, k: nat)
    requires start < n && Rotation(status, n, start) != []
    ensures Rotation(status, n, Polled(status, n, start, k)) != []
    ensures Polled(status, n, start, k + 1) == (Rotation(status, n, Polled(status, n, start, k))[0] + 1) % n
    ensures Start(Polled(status, n, start, k + 1), n) == Polled(status, n, start, k + 1)
  {
    RoundRobin(status, n, start, k);
  }

  /**
   `times` calls of `Next` on a polling channel with an enabled key: they serve the enabled keys
   in turn, beginning with the first one from the saved index on, and never fail.
   */
  method Poll(pool: Pool, pick: nat -> nat, times: nat) returns (served: seq<nat>)
    requires pool.multi && pool.mode == Polling && HasEnabled(|pool.keys|, pool.status)
    requires forall m :: m > 0 ==> pick(m) < m
    modifies pool`index
    ensures var order := Rotation(pool.status, |pool.keys|, Start(old(pool.index), |pool.keys|));
            order != [] && |served| == times && forall k :: 0 <= k < times ==> served[k] == order[Turn(k, |order|)]
  {
    var n, status := |pool.keys|, pool.status;
    ghost var start := Start(pool.index, n);
    ghost var order := Rotation(status, n, start);
    HasEnabledRotates(status, n, start);
    served := [];
    var k := 0;
    assert Start(pool.index, n) == Polled(status, n, start, 0);
    hide Rotation, Polled, Turn, HasEnabled, FirstFrom;
    while k < times
      invariant 0 <= k <= times && |served| == k
      invariant pool.status == status && HasEnabled(n, status)
      invariant Start(pool.index, n) == Polled(status, n, start, k)
      invariant forall j :: 0 <= j < k ==> served[j] == order[Turn(j, |order|)]
    {
      RoundRobin(status, n, start, k);
      PolledNext(status, n, start, k);
      var r := pool.Next(pick, true);
      served := served + [r.value.1];
      k := k + 1;
    }
  }

  lemma DistinctConcat(ahead: seq<nat>, behind: seq<nat>, start: nat)
    requires Increasing(ahead) && Increasing(behind)
    requires forall j :: 0 <= j < |ahead| ==> ahead[j] >= start
    requires forall j :: 0 <= j < |behind| ==> behind[j] < start
    ensures forall j, k :: 0 <= j < k < |ahead + behind| ==> (ahead + behind)[j] != (ahead + behind)[k]
  {
    var order, m := ahead + behind, |ahead|;
    assert forall j :: 0 <= j < m ==> order[j] == ahead[j];
    assert forall j :: m <= j < |order| ==> order[j] == behind[j - m];
  }

  /** One round serves every enabled key, and no key twice. */
  lemma RoundServesEachOnce(status: map<int, int>, n: nat, start: nat)
    requires start < n
    ensures var order := Rotation(status, n, start);
            && (forall i :: i in order <==> 0 <= i < n && StatusAt(status, i) == ENABLED)
            && (forall j, k :: 0 <= j < k < |order| ==> order[j] != order[k])
  {
    var ahead, behind := EnabledFrom(status, start, n), EnabledFrom(status, 0, start);
    forall i: nat
      ensures i in ahead <==> start <= i < n && StatusAt(status, i) == ENABLED
      ensures i in behind <==> 0 <= i < start && StatusAt(status, i) == ENABLED
    {
      EnabledMember(status, start, n, i);
      EnabledMember(status, 0, start, i);
    }
    Ascending(status, start, n);
    Ascending(status, 0, start);
    hide EnabledFrom, Increasing;
    assert forall j :: 0 <= j < |ahead| ==> ahead[j] in ahead;
    assert forall j :: 0 <= j < |behind| ==> behind[j] in behind;
    DistinctConcat(ahead, behind, start);
  }

  ghost predicate Increasing(xs: seq<nat>) {
    forall j, k :: 0 <= j < k < |xs| ==> xs[j] < xs[k]
  }

  lemma {:induction false} Ascending(status: map<int, int>, lo: nat, hi: nat)
    requires lo <= hi
    ensures Increasing(EnabledFrom(status, lo, hi))
    decreases hi - lo
  {
    if lo < hi {
      Ascending(status, lo + 1, hi);
      var rest := EnabledFrom(status, lo + 1, hi);
      forall k | 0 <= k < |rest|
        ensures lo < rest[k]
      {
        EnabledMember(status, lo + 1, hi, rest[k]);
      }
    }
  }
}
