/**
 What the mapped-DNS index of hev-mapped-dns.c computes: a bounded table from names to small integers
 that gives up the least recently touched name when it is full.
 */
module LruSpec {
  import opened Options
  import opened Bytes
  import opened Sets

  datatype Item = Item(name: Octets, idx: nat)

  /** `lru` lists the items, least recently touched first. */
  datatype Cache = Cache(max: nat, lru: seq<Item>)

  /** The position of the first item called `name`, or `|s|`. */
  function ByName(s: seq<Item>, name: Octets): (k: nat)
    ensures k <= |s| && (k < |s| ==> s[k].name == name) && forall i :: 0 <= i < k ==> s[i].name != name
  {
    if s == [] || s[0].name == name then 0 else 1 + ByName(s[1..], name)
  }

  function ByIdx(s: seq<Item>, idx: int): (k: nat)
    ensures k <= |s| && (k < |s| ==> s[k].idx == idx) && forall i :: 0 <= i < k ==> s[i].idx != idx
  {
    if s == [] || s[0].idx == idx then 0 else 1 + ByIdx(s[1..], idx)
  }

  function Touch(s: seq<Item>, k: nat): seq<Item>
    requires k < |s|
  {
    s[..k] + s[k + 1..] + [s[k]]
  }

  /** hev_mapped_dns_find: the index of `name`, giving it one if need be. */
  function Find(c: Cache, name: Octets): (Cache, nat)
    requires c.max >= 1
  {
    var k := ByName(c.lru, name);
    if k < |c.lru| then (c.(lru := Touch(c.lru, k)), c.lru[k].idx)
    else if |c.lru| < c.max then (c.(lru := c.lru + [Item(name, |c.lru|)]), |c.lru|)
    else (c.(lru := c.lru[1..] + [Item(name, c.lru[0].idx)]), c.lru[0].idx)
  }

  /** hev_mapped_dns_lookup: the name that has index `idx`. */
  function Lookup(c: Cache, idx: int): (Cache, Option<Octets>) {
    var k := ByIdx(c.lru, idx);
    if k < |c.lru| then (c.(lru := Touch(c.lru, k)), Some(c.lru[k].name)) else (c, None)
  }

  // ----- invariant ------------------------------------------------------------------------------

  /** Names are distinct, and the indices are exactly 0, ..., |lru|-1. */
  ghost predicate Ok(c: Cache) {
    && |c.lru| <= c.max && c.max >= 1
    && (forall i, j :: 0 <= i < j < |c.lru| ==> c.lru[i].name != c.lru[j].name)
    && (forall i, j :: 0 <= i < j < |c.lru| ==> c.lru[i].idx != c.lru[j].idx)
    && (forall i :: 0 <= i < |c.lru| ==> c.lru[i].idx < |c.lru|)
  }

  /** Where item `i` comes from when item `k` of `n` is touched. */
  function Source(k: nat, n: nat, i: nat): nat { if i < k then i else if i + 1 < n then i + 1 else k }

  lemma TouchOk(c: Cache, k: nat)
    requires Ok(c) && k < |c.lru|
    ensures Ok(c.(lru := Touch(c.lru, k)))
  {
    var s, t := c.lru, Touch(c.lru, k);
    forall i, j | 0 <= i < j < |t| ensures t[i].name != t[j].name && t[i].idx != t[j].idx && t[i].idx < |t| {
      var a, b := Source(k, |s|, i), Source(k, |s|, j);
      assert t[i] == s[a] && t[j] == s[b] && a != b;
    }
    assert t[|t| - 1] == s[k];
  }

  lemma AppendOk(c: Cache, name: Octets)
    requires Ok(c) && |c.lru| < c.max && ByName(c.lru, name) == |c.lru|
    ensures Ok(c.(lru := c.lru + [Item(name, |c.lru|)]))
  {
    var s, t := c.lru, c.lru + [Item(name, |c.lru|)];
    forall i, j | 0 <= i < j < |t| ensures t[i].name != t[j].name && t[i].idx != t[j].idx {
      assert t[i] == s[i] && (j < |s| ==> t[j] == s[j]);
    }
  }

  lemma EvictOk(c: Cache, name: Octets)
    requires Ok(c) && |c.lru| == c.max && ByName(c.lru, name) == |c.lru|
    ensures Ok(c.(lru := c.lru[1..] + [Item(name, c.lru[0].idx)]))
  {
    var s, t := c.lru, c.lru[1..] + [Item(name, c.lru[0].idx)];
    forall i, j | 0 <= i < j < |t| ensures t[i].name != t[j].name && t[i].idx != t[j].idx && t[i].idx < |t| {
      assert t[i] == s[i + 1] && (j + 1 < |s| ==> t[j] == s[j + 1]);
    }
    assert t[|t| - 1].idx == s[0].idx;
  }

  lemma FindOk(c: Cache, name: Octets)
    requires Ok(c)
    ensures Ok(Find(c, name).0) && Find(c, name).0.max == c.max
    ensures var (c', idx) := Find(c, name);
      idx < c.max && |c'.lru| > 0 && c'.lru[|c'.lru| - 1] == Item(name, idx)
  {
    var k := ByName(c.lru, name);
    if k < |c.lru| {
      TouchOk(c, k);
    } else if |c.lru| < c.max {
      AppendOk(c, name);
    } else {
      EvictOk(c, name);
    }
  }

  lemma LookupOk(c: Cache, idx: int)
    requires Ok(c)
    ensures Ok(Lookup(c, idx).0) && Lookup(c, idx).0.max == c.max
    ensures var (c', name) := Lookup(c, idx);
      name.Some? ==> |c'.lru| > 0 && idx >= 0 && c'.lru[|c'.lru| - 1] == Item(name.value, idx)
  {
    var k := ByIdx(c.lru, idx);
    if k < |c.lru| { TouchOk(c, k); }
  }

  /** Finding a name and looking its index up again gives the name back. */
  lemma FindThenLookup(c: Cache, name: Octets)
    requires Ok(c)
    ensures var (c', idx) := Find(c, name); Lookup(c', idx).1 == Some(name)
  {
    FindOk(c, name);
    var (c', idx) := Find(c, name);
    var k, last := ByIdx(c'.lru, idx), |c'.lru| - 1;
    assert c'.lru[last].idx == idx;
    assert k == last;
  }

  // ----- runs ---------------------------------------------------------------------------------------

  datatype Op = FindOp(name: Octets) | LookupOp(idx: int)

  function Step(c: Cache, op: Op): Cache
    requires c.max >= 1
  {
    match op
    case FindOp(name) => Find(c, name).0
    case LookupOp(idx) => Lookup(c, idx).0
  }

  /** The name an operation touches, if any. */
  function Touches(c: Cache, op: Op): Option<Octets> {
    match op
    case FindOp(name) => Some(name)
    case LookupOp(idx) => Lookup(c, idx).1
  }

  function Names(o: Option<Octets>): set<Octets> { if o.Some? then {o.value} else {} }

  ghost function Run(c: Cache, ops: seq<Op>): Cache
    requires Ok(c)
    decreases |ops|
  {
    if ops == [] then c else (StepOk(c, ops[0]); Run(Step(c, ops[0]), ops[1..]))
  }

  /** All names touched along a run. */
  ghost function Touched(c: Cache, ops: seq<Op>): set<Octets>
    requires Ok(c)
    decreases |ops|
  {
    if ops == [] then {} else (StepOk(c, ops[0]); Names(Touches(c, ops[0])) + Touched(Step(c, ops[0]), ops[1..]))
  }

  lemma StepOk(c: Cache, op: Op)
    requires Ok(c)
    ensures Ok(Step(c, op)) && Step(c, op).max == c.max
  {
    match op
    case FindOp(name) => FindOk(c, name);
    case LookupOp(idx) => LookupOk(c, idx);
  }

  /** The names of the items after position `p`. */
  ghost function After(s: seq<Item>, p: nat): set<Octets> { set i | p < i < |s| :: s[i].name }

  lemma {:induction false} AfterSize(s: seq<Item>, p: nat)
    requires p < |s| && forall i, j :: 0 <= i < j < |s| ==> s[i].name != s[j].name
    ensures |After(s, p)| == |s| - 1 - p
    decreases |s| - p
  {
    if p + 1 < |s| {
      AfterSize(s, p + 1);
      assert After(s, p) == After(s, p + 1) + {s[p + 1].name};
      assert s[p + 1].name !in After(s, p + 1);
    } else {
      assert After(s, p) == {};
    }
  }

  /** The item called `n` sits in the cache with index `i`, and exactly the names `ts` come after it. */
  ghost predicate Tracked(c: Cache, n: Octets, i: nat, ts: set<Octets>) {
    exists p :: 0 <= p < |c.lru| && c.lru[p] == Item(n, i) && After(c.lru, p) == ts
  }

  ghost predicate Absent(c: Cache, n: Octets) { forall p :: 0 <= p < |c.lru| ==> c.lru[p].name != n }

  lemma TouchTracked(c: Cache, n: Octets, i: nat, p: nat, k: nat)
    requires Ok(c) && p < |c.lru| && c.lru[p] == Item(n, i) && k < |c.lru| && k != p
    ensures Tracked(c.(lru := Touch(c.lru, k)), n, i, After(c.lru, p) + {c.lru[k].name})
  {
    var s := c.lru;
    var cut, q := s[..k] + s[k + 1..], if p < k then p else p - 1;
    CutAfter(s, p, k);
    AppendAfter(cut, q, s[k]);
    assert Touch(s, k) == cut + [s[k]];
    assert Touch(s, k)[q] == s[p];
    hide After, Ok;
    assert After(cut, q) + {s[k].name} == After(s, p) + {s[k].name};
  }

  lemma CutAfter(s: seq<Item>, p: nat, k: nat)
    requires p < |s| && k < |s| && k != p && forall i, j :: 0 <= i < j < |s| ==> s[i].name != s[j].name
    ensures After(s[..k] + s[k + 1..], if p < k then p else p - 1) == After(s, p) - {s[k].name}
  {
    var cut, q := s[..k] + s[k + 1..], if p < k then p else p - 1;
    assert forall j :: 0 <= j < |cut| ==> cut[j] == s[if j < k then j else j + 1];
    forall x | x in After(s, p) && x != s[k].name ensures x in After(cut, q) {
      var j :| p < j < |s| && s[j].name == x;
      assert cut[if j < k then j else j - 1] == s[j];
    }
  }

  /** One operation that does not touch `n`: either `n` stays, with the touched name after it, or the
      cache was full and `n` the oldest. */
  lemma TrackedStep(c: Cache, op: Op, n: Octets, i: nat, ts: set<Octets>)
    requires Ok(c) && Tracked(c, n, i, ts) && n !in Names(Touches(c, op))
    ensures var ts' := ts + Names(Touches(c, op));
      if Tracked(Step(c, op), n, i, ts') then |ts'| < c.max else |ts'| >= c.max && Absent(Step(c, op), n)
  {
    var ts', c' := ts + Names(Touches(c, op)), Step(c, op);
    StepOk(c, op);
    if Tracked(c', n, i, ts') {
      TrackedSmall(c', n, i, ts');
    } else {
      var p :| 0 <= p < |c.lru| && c.lru[p] == Item(n, i) && After(c.lru, p) == ts;
      hide After, Ok, Tracked, Absent;
      match op
      case LookupOp(idx) => LookupTracked(c, n, i, p, idx);
      case FindOp(name) => FindTracked(c, n, i, p, name);
    }
  }

  lemma LookupTracked(c: Cache, n: Octets, i: nat, p: nat, idx: int)
    requires Ok(c) && p < |c.lru| && c.lru[p] == Item(n, i) && n !in Names(Lookup(c, idx).1)
    ensures Tracked(Lookup(c, idx).0, n, i, After(c.lru, p) + Names(Lookup(c, idx).1))
  {
    var k, ts := ByIdx(c.lru, idx), After(c.lru, p);
    hide After, Ok, Touch;
    if k < |c.lru| {
      hide Tracked;
      TouchTracked(c, n, i, p, k);
    } else {
      assert ts + {} == ts;
    }
  }

  lemma FindTracked(c: Cache, n: Octets, i: nat, p: nat, name: Octets)
    requires Ok(c) && p < |c.lru| && c.lru[p] == Item(n, i) && name != n
    ensures var ts', c' := After(c.lru, p) + {name}, Find(c, name).0;
      Tracked(c', n, i, ts') || (|ts'| >= c.max && Absent(c', n))
  {
    var k, s := ByName(c.lru, name), c.lru;
    if k < |s| {
      TouchTracked(c, n, i, p, k);
    } else if |s| < c.max {
      var x := Item(name, |s|);
      AppendAfter(s, p, x);
      hide After, Ok;
      assert (s + [x])[p] == s[p];
    } else {
      EvictTracked(c, n, i, p, name);
    }
  }

  lemma TrackedSmall(c: Cache, n: Octets, i: nat, ts: set<Octets>)
    requires Ok(c) && Tracked(c, n, i, ts)
    ensures |ts| < c.max
  {
    var p :| 0 <= p < |c.lru| && c.lru[p] == Item(n, i) && After(c.lru, p) == ts;
    AfterSize(c.lru, p);
  }

  lemma AppendAfter(s: seq<Item>, p: nat, x: Item)
    requires p < |s|
    ensures After(s + [x], p) == After(s, p) + {x.name}
  {
    var t := s + [x];
    assert forall j :: 0 <= j < |s| ==> t[j] == s[j];
    assert t[|s|] == x;
    forall y | y in After(s, p) ensures y in After(t, p) {
      var j :| p < j < |s| && s[j].name == y;
      assert t[j].name == y;
    }
    assert x.name in After(t, p);
  }

  lemma EvictTracked(c: Cache, n: Octets, i: nat, p: nat, name: Octets)
    requires Ok(c) && p < |c.lru| == c.max && c.lru[p] == Item(n, i) && ByName(c.lru, name) == |c.lru| && name != n
    ensures var ts', c' := After(c.lru, p) + {name}, c.(lru := c.lru[1..] + [Item(name, c.lru[0].idx)]);
      if p > 0 then Tracked(c', n, i, ts') else |ts'| >= c.max && Absent(c', n)
  {
    var s := c.lru;
    var x := Item(name, s[0].idx);
    var t := s[1..] + [x];
    if p > 0 {
      DropAfter(s, p);
      AppendAfter(s[1..], p - 1, x);
      hide After, Ok;
      assert t[p - 1] == s[p];
    } else {
      AfterSize(s, 0);
      assert name !in After(s, 0);
      hide After;
      forall j | 0 <= j < |t| ensures t[j].name != n {
        assert t[j] == if j + 1 < |s| then s[j + 1] else x;
      }
    }
  }

  lemma DropAfter(s: seq<Item>, p: nat)
    requires 0 < p < |s|
    ensures After(s[1..], p - 1) == After(s, p)
  {
    forall y | y in After(s, p) ensures y in After(s[1..], p - 1) {
      var j :| p < j < |s| && s[j].name == y;
      assert s[1..][j - 1].name == y;
    }
  }

  /** Along a run that never touches `n`: `n` keeps its index exactly as long as fewer than `max` distinct
      other names have been touched. */
  lemma {:induction false} TrackedRun(c: Cache, ops: seq<Op>, n: Octets, i: nat, ts: set<Octets>)
    requires Ok(c) && n !in Touched(c, ops)
    requires if |ts| < c.max then Tracked(c, n, i, ts) else Absent(c, n)
    ensures Ok(Run(c, ops)) && Run(c, ops).max == c.max
    ensures if |ts + Touched(c, ops)| < c.max then Tracked(Run(c, ops), n, i, ts + Touched(c, ops))
      else Absent(Run(c, ops), n)
    decreases |ops|
  {
    assert c.max >= 1;
    hide After, Tracked, Absent, Ok, Step, Touches, Names;
    if ops == [] {
      assert ts + {} == ts;
    } else {
      var c' := Step(c, ops[0]);
      StepOk(c, ops[0]);
      var t1, rest := Names(Touches(c, ops[0])), Touched(c', ops[1..]);
      if |ts| < c.max {
        TrackedStep(c, ops[0], n, i, ts);
      } else {
        AbsentStep(c, ops[0], n);
        SubsetSize(ts, ts + t1);
      }
      TrackedRun(c', ops[1..], n, i, ts + t1);
      assert ts + t1 + rest == ts + (t1 + rest);
    }
  }

  lemma AbsentStep(c: Cache, op: Op, n: Octets)
    requires Ok(c) && Absent(c, n) && n !in Names(Touches(c, op))
    ensures Absent(Step(c, op), n)
  {
    var s := c.lru;
    match op
    case LookupOp(idx) =>
      var k := ByIdx(s, idx);
    case FindOp(name) =>
      var k := ByName(s, name);
  }

  /** The retention theorem. Right after `n` has been touched and has index `i`, run any operations that do not
      touch `n`: looking `i` up still gives `n` if and only if fewer than `max` distinct names were touched. */
  lemma Retention(c: Cache, ops: seq<Op>, n: Octets, i: nat)
    requires Ok(c) && c.lru != [] && c.lru[|c.lru| - 1] == Item(n, i) && n !in Touched(c, ops)
    ensures Ok(Run(c, ops))
    ensures Lookup(Run(c, ops), i).1 == Some(n) <==> |Touched(c, ops)| < c.max
  {
    var p := |c.lru| - 1;
    assert After(c.lru, p) == {};
    assert c.lru[p] == Item(n, i) && Tracked(c, n, i, {});
    TrackedRun(c, ops, n, i, {});
    assert {} + Touched(c, ops) == Touched(c, ops);
    var d := Run(c, ops);
    if |Touched(c, ops)| < c.max {
      var q :| 0 <= q < |d.lru| && d.lru[q] == Item(n, i);
      assert ByIdx(d.lru, i) == q;
    }
  }

  // ----- a working set that fits -----------------------------------------------------------------

  /** `n` has index `i`, and only members of `names` were touched after it. */
  ghost predicate Held(c: Cache, n: Octets, i: nat, names: set<Octets>) {
    exists ts :: Tracked(c, n, i, ts) && ts <= names - {n}
  }

  lemma HeldLast(c: Cache, n: Octets, i: nat, names: set<Octets>)
    requires c.lru != [] && c.lru[|c.lru| - 1] == Item(n, i)
    ensures Held(c, n, i, names)
  {
    var p := |c.lru| - 1;
    assert After(c.lru, p) == {};
    assert Tracked(c, n, i, {});
  }

  lemma TouchedLast(c: Cache, op: Op, p: nat)
    requires Ok(c) && p < |c.lru| && c.lru[p].name in Names(Touches(c, op))
    ensures Step(c, op).lru != [] && Step(c, op).lru[|Step(c, op).lru| - 1] == c.lru[p]
  {
    match op
    case LookupOp(idx) => assert ByIdx(c.lru, idx) == p;
    case FindOp(name) => assert ByName(c.lru, name) == p;
  }

  lemma HeldStep(c: Cache, op: Op, n: Octets, i: nat, names: set<Octets>)
    requires Ok(c) && Held(c, n, i, names) && n in names && |names| <= c.max && Names(Touches(c, op)) <= names
    ensures Held(Step(c, op), n, i, names)
  {
    var ts :| Tracked(c, n, i, ts) && ts <= names - {n};
    if n in Names(Touches(c, op)) {
      var p :| 0 <= p < |c.lru| && c.lru[p] == Item(n, i) && After(c.lru, p) == ts;
      hide Tracked, Ok, Touches, Step;
      TouchedLast(c, op, p);
      HeldLast(Step(c, op), n, i, names);
    } else {
      var ts' := ts + Names(Touches(c, op));
      hide Tracked, Ok, Touches, Step;
      TrackedStep(c, op, n, i, ts);
      SubsetSize(ts', names - {n});
    }
  }

  /** As long as at most `max` names are in play, every one of them keeps its index. */
  lemma {:induction false} HeldRun(c: Cache, ops: seq<Op>, n: Octets, i: nat, names: set<Octets>)
    requires Ok(c) && Held(c, n, i, names) && n in names && |names| <= c.max && Touched(c, ops) <= names
    ensures Ok(Run(c, ops)) && Run(c, ops).max == c.max && Held(Run(c, ops), n, i, names)
    ensures Lookup(Run(c, ops), i).1 == Some(n)
    decreases |ops|
  {
    if ops == [] {
      HeldFound(c, n, i, names);
    } else {
      StepOk(c, ops[0]);
      HeldStep(c, ops[0], n, i, names);
      HeldRun(Step(c, ops[0]), ops[1..], n, i, names);
    }
  }

  lemma HeldFound(c: Cache, n: Octets, i: nat, names: set<Octets>)
    requires Ok(c) && Held(c, n, i, names)
    ensures Lookup(c, i).1 == Some(n)
  {
    var ts :| Tracked(c, n, i, ts) && ts <= names - {n};
    var p :| 0 <= p < |c.lru| && c.lru[p] == Item(n, i) && After(c.lru, p) == ts;
    assert ByIdx(c.lru, i) == p;
  }
}
