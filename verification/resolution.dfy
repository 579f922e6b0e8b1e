/**
 Recipient resolution at the start of `wrap`: the dict comprehension that
 looks every requested alias up, the list of pairs whose id is not `None`,
 and the `zip(*...)` unpacking that raises when that list is empty.
 */
module Resolution {
  import opened Wrappers
  import opened ConfigFile

  /** One `alias: id` item of a Python dict. */
  type Entry = (string, Value)

  /** A Python dict as the sequence of its items in insertion order. */
  type Dict = seq<Entry>

  /** The dict's keys, in order. */
  function Keys(d: Dict): (ks: seq<string>)
    ensures |ks| == |d|
    ensures forall i :: 0 <= i < |d| ==> ks[i] == d[i].0
    decreases |d|
  {
    if |d| == 0 then [] else [d[0].0] + Keys(d[1..])
  }

  /** The dict's values, in order. */
  function Ids(d: Dict): (ids: seq<Value>)
    ensures |ids| == |d|
    ensures forall i :: 0 <= i < |d| ==> ids[i] == d[i].1
    decreases |d|
  {
    if |d| == 0 then [] else [d[0].1] + Ids(d[1..])
  }

  predicate Distinct(ks: seq<string>)
  {
    forall i, j :: 0 <= i < j < |ks| ==> ks[i] != ks[j]
  }

  /** `d[k] = v` on a dict: an existing key keeps its position and takes the
      new value; a new key goes last. */
  function Put(d: Dict, k: string, v: Value): (r: Dict)
    requires Distinct(Keys(d))
    ensures k in Keys(d) ==> Keys(r) == Keys(d)
    ensures k !in Keys(d) ==> r == d + [(k, v)]
    ensures forall i :: 0 <= i < |d| ==> r[i] == (if d[i].0 == k then (k, v) else d[i])
    decreases |d|
  {
    if |d| == 0 then [(k, v)]
    else
      assert Keys(d) == [d[0].0] + Keys(d[1..]);
      if d[0].0 == k then [(k, v)] + d[1..]
      else [d[0]] + Put(d[1..], k, v)
  }

  /** Position of the first occurrence of `x` in `s`. */
  function FirstIndex(s: seq<string>, x: string): (k: nat)
    requires x in s
    ensures k < |s| && s[k] == x
  {
    if s[0] == x then 0 else 1 + FirstIndex(s[1..], x)
  }

  /** No occurrence comes before the first one. */
  lemma {:induction false} FirstIndexIsFirst(s: seq<string>, x: string)
    requires x in s
    ensures forall j :: 0 <= j < FirstIndex(s, x) ==> s[j] != x
  {
    if s[0] != x {
      FirstIndexIsFirst(s[1..], x);
      forall j | 1 <= j < FirstIndex(s, x) ensures s[j] != x {
        assert s[j] == s[1..][j - 1];
      }
    }
  }

  lemma {:induction false} FirstIndexExtend(s: seq<string>, y: string, x: string)
    requires x in s
    ensures FirstIndex(s + [y], x) == FirstIndex(s, x)
  {
    var k := FirstIndex(s, x);
    var t := s + [y];
    FirstIndexIsFirst(s, x);
    FirstIndexIsFirst(t, x);
    assert t[k] == x;
    forall j | 0 <= j < k ensures t[j] != x {
      assert t[j] == s[j];
    }
    var k' := FirstIndex(t, x);
    assert !(k' < k);
  }

  lemma {:induction false} FirstIndexNew(s: seq<string>, x: string)
    requires x !in s
    ensures FirstIndex(s + [x], x) == |s|
  {
    var t := s + [x];
    FirstIndexIsFirst(t, x);
    assert forall j :: 0 <= j < |s| ==> t[j] == s[j];
  }

  /** Every key was requested, and the keys come in the order of their first
      occurrence in `req`. */
  predicate InRequestOrder(ks: seq<string>, req: seq<string>)
  {
    && (forall i :: 0 <= i < |ks| ==> ks[i] in req)
    && (forall i, j :: 0 <= i < j < |ks| ==> FirstIndex(req, ks[i]) < FirstIndex(req, ks[j]))
  }

  /** Keys in request order are pairwise distinct. */
  lemma OrderedIsDistinct(ks: seq<string>, req: seq<string>)
    requires InRequestOrder(ks, req)
    ensures Distinct(ks)
  {
  }

  /** One more request keeps the order of the keys seen so far and puts a
      never-seen alias last. */
  lemma {:induction false} OrderExtend(ks: seq<string>, init: seq<string>, x: string)
    requires InRequestOrder(ks, init)
    ensures x in init ==> InRequestOrder(ks, init + [x])
    ensures x !in init ==> InRequestOrder(ks + [x], init + [x])
  {
    forall a | a in init ensures FirstIndex(init + [x], a) == FirstIndex(init, a) {
      FirstIndexExtend(init, x, a);
    }
    if x !in init {
      FirstIndexNew(init, x);
      var ks' := ks + [x];
      forall i | 0 <= i < |ks'| ensures ks'[i] in init + [x] {
        if i < |ks| {
          assert ks'[i] == ks[i];
        }
      }
      forall i, j | 0 <= i < j < |ks'|
        ensures FirstIndex(init + [x], ks'[i]) < FirstIndex(init + [x], ks'[j])
      {
        assert ks'[i] == ks[i];
        if j < |ks| {
          assert ks'[j] == ks[j];
        }
      }
    }
  }

  /** Reference definition: every alias of `req` once, at its first occurrence. */
  function Dedup(req: seq<string>): (r: seq<string>)
    ensures forall a :: a in r <==> a in req
    ensures Distinct(r)
    decreases |req|
  {
    if |req| == 0 then []
    else
      var init := req[..|req| - 1];
      var x := req[|req| - 1];
      assert req == init + [x];
      if x in init then Dedup(init) else Dedup(init) + [x]
  }

  /** The deduplicated aliases come in the order of their first request. */
  lemma {:induction false} DedupOrder(req: seq<string>)
    ensures InRequestOrder(Dedup(req), req)
    decreases |req|
  {
    if |req| > 0 {
      var init := req[..|req| - 1];
      var x := req[|req| - 1];
      assert req == init + [x];
      DedupOrder(init);
      OrderExtend(Dedup(init), init, x);
    }
  }

  /** `{x: config.get(x, None) for x in req}`: the deduplicated request as
      keys, each with its lookup. */
  function UserDict(config: Config, req: seq<string>): (d: Dict)
    ensures Keys(d) == Dedup(req)
    ensures forall i :: 0 <= i < |d| ==> d[i].1 == PyGet(config, d[i].0)
    decreases |req|
  {
    if |req| == 0 then []
    else
      var init := req[..|req| - 1];
      var x := req[|req| - 1];
      var d0 := UserDict(config, init);
      var d := Put(d0, x, PyGet(config, x));
      assert req[..|req| - 1] == init;
      assert Keys(d) == Dedup(req) by {
        if x !in Keys(d0) {
          assert d == d0 + [(x, PyGet(config, x))];
          assert Keys(d) == Keys(d0) + [x];
        }
      }
      assert forall i :: 0 <= i < |d| ==> d[i].1 == PyGet(config, d[i].0) by {
        forall i | 0 <= i < |d| ensures d[i].1 == PyGet(config, d[i].0) {
          if i < |d0| {
            assert d[i] == (if d0[i].0 == x then (x, PyGet(config, x)) else d0[i]);
          }
        }
      }
      d
  }

  /** `[(x, y) for x, y in d.items() if y is not None]`. */
  function Resolved(d: Dict): (r: Dict)
    ensures forall e :: e in r <==> e in d && e.1 != Null
    decreases |d|
  {
    if |d| == 0 then []
    else if d[0].1 == Null then Resolved(d[1..])
    else [d[0]] + Resolved(d[1..])
  }

  lemma {:induction false} OrderTail(ks: seq<string>, req: seq<string>)
    requires |ks| >= 1 && InRequestOrder(ks, req)
    ensures InRequestOrder(ks[1..], req)
    ensures forall y :: y in ks[1..] ==> FirstIndex(req, ks[0]) < FirstIndex(req, y)
  {
  }

  lemma {:induction false} OrderCons(k: string, ts: seq<string>, req: seq<string>)
    requires k in req && InRequestOrder(ts, req)
    requires forall y :: y in ts ==> FirstIndex(req, k) < FirstIndex(req, y)
    ensures InRequestOrder([k] + ts, req)
  {
  }

  /** Dropping the unresolved items keeps the rest in request order. */
  lemma {:induction false} ResolvedKeepsOrder(d: Dict, req: seq<string>)
    requires InRequestOrder(Keys(d), req)
    ensures InRequestOrder(Keys(Resolved(d)), req)
    decreases |d|
  {
    if |d| > 0 {
      var ks := Keys(d);
      OrderTail(ks, req);
      assert ks[1..] == Keys(d[1..]);
      ResolvedKeepsOrder(d[1..], req);
      var t := Resolved(d[1..]);
      if d[0].1 != Null {
        assert Keys(Resolved(d)) == [d[0].0] + Keys(t);
        forall y | y in Keys(t) ensures FirstIndex(req, d[0].0) < FirstIndex(req, y) {
          var j :| 0 <= j < |t| && Keys(t)[j] == y;
          assert t[j] in d[1..];
          var k :| 0 <= k < |d[1..]| && d[1..][k] == t[j];
          assert ks[1..][k] == y;
        }
        OrderCons(d[0].0, Keys(t), req);
      }
    }
  }

  /** The result of `found_users, user_ids = zip(*pairs)`. */
  datatype Recipients = Recipients(aliases: seq<string>, ids: seq<Value>)

  /** Why resolution raised: `zip(*[])` has nothing to unpack into two names. */
  datatype ResolveError = NothingResolved

  /** Every kept pair is a requested alias with its configured, non-null id. */
  lemma ResolvedPairsSound(config: Config, req: seq<string>)
    ensures forall i :: 0 <= i < |Resolved(UserDict(config, req))| ==>
      var e := Resolved(UserDict(config, req))[i];
      e.0 in req && Resolves(config, e.0) && e.1 == config[e.0]
  {
  }

  /** Every requested alias that resolves is kept. */
  lemma ResolvedPairsComplete(config: Config, req: seq<string>)
    ensures forall a :: a in req && Resolves(config, a) ==> a in Keys(Resolved(UserDict(config, req)))
  {
  }

  /** An item whose value is not `None` survives the filter. */
  lemma {:induction false} ResolvedKeepsKey(d: Dict, k: nat)
    requires k < |d| && d[k].1 != Null
    ensures d[k].0 in Keys(Resolved(d))
    decreases |d|
  {
  }

  /** The kept aliases come in first-request order. */
  lemma ResolvedPairsOrdered(config: Config, req: seq<string>)
    ensures InRequestOrder(Keys(Resolved(UserDict(config, req))), req)
  {
    DedupOrder(req);
    ResolvedKeepsOrder(UserDict(config, req), req);
  }

  /** Lines 42-43 of `wrap`: the requested aliases that resolve, each once,
      in first-request order, with their ids; an error when none resolves. */
  function Resolve(config: Config, req: seq<string>): (r: Result<Recipients, ResolveError>)
    ensures r.Failure? <==> forall a :: a in req ==> !Resolves(config, a)
    ensures r.Success? ==> |r.value.aliases| == |r.value.ids| >= 1
    ensures r.Success? ==> forall i :: 0 <= i < |r.value.aliases| ==>
      && r.value.aliases[i] in req
      && Resolves(config, r.value.aliases[i])
      && r.value.ids[i] == config[r.value.aliases[i]]
    ensures r.Success? ==> forall a :: a in req && Resolves(config, a) ==> a in r.value.aliases
    ensures r.Success? ==> forall i, j :: 0 <= i < j < |r.value.aliases| ==>
      FirstIndex(req, r.value.aliases[i]) < FirstIndex(req, r.value.aliases[j])
  {
    var pairs := Resolved(UserDict(config, req));
    ResolvedPairsSound(config, req);
    ResolvedPairsComplete(config, req);
    ResolvedPairsOrdered(config, req);
    if |pairs| == 0 then
      Failure(NothingResolved)
    else
      assert Resolves(config, pairs[0].0);
      Success(Recipients(Keys(pairs), Ids(pairs)))
  }

  /** Requesting an alias again changes nothing: the comprehension builds a
      dict, so a repeated alias collapses into its first occurrence. */
  lemma {:induction false} RepeatedAliasCollapses(config: Config, req: seq<string>, a: string)
    requires a in req
    ensures Resolve(config, req + [a]) == Resolve(config, req)
  {
    var req' := req + [a];
    assert req'[..|req'| - 1] == req;
    var d := UserDict(config, req);
    var d' := Put(d, a, PyGet(config, a));
    assert UserDict(config, req') == d';
    assert |d'| == |d|;
    forall i | 0 <= i < |d| ensures d'[i] == d[i] {
    }
    assert d' == d;
  }

  /** Every `config.get` returns an id: nothing is filtered out. */
  lemma {:induction false} ResolvedAll(d: Dict)
    requires forall i :: 0 <= i < |d| ==> d[i].1 != Null
    ensures Resolved(d) == d
    decreases |d|
  {
    if |d| > 0 {
      ResolvedAll(d[1..]);
      assert [d[0]] + d[1..] == d;
    }
  }

  lemma DistinctSplit(s: seq<string>)
    requires |s| >= 1 && Distinct(s)
    ensures Distinct(s[..|s| - 1])
    ensures s[|s| - 1] !in s[..|s| - 1]
  {
  }

  /** A request without repeats is its own deduplication. */
  lemma {:induction false} DedupDistinct(req: seq<string>)
    requires Distinct(req)
    ensures Dedup(req) == req
    decreases |req|
  {
    if |req| > 0 {
      var init := req[..|req| - 1];
      DistinctSplit(req);
      DedupDistinct(init);
      assert req == init + [req[|req| - 1]];
    }
  }

  /** When every requested alias is distinct and resolves, every one of them
      is a recipient, in request order, and there are as many ids as aliases. */
  lemma AllResolveDistinct(config: Config, req: seq<string>)
    requires |req| >= 1 && Distinct(req)
    requires forall i :: 0 <= i < |req| ==> Resolves(config, req[i])
    ensures Resolve(config, req).Success?
    ensures Resolve(config, req).value.aliases == req
    ensures |Resolve(config, req).value.ids| == |req|
    ensures forall i :: 0 <= i < |req| ==> Resolve(config, req).value.ids[i] == config[req[i]]
  {
    var d := UserDict(config, req);
    UserDictAllResolve(config, req);
    ResolvedAll(d);
    ResolveWhenAllKept(config, req);
    var ids := Ids(d);
    forall i | 0 <= i < |req| ensures ids[i] == config[req[i]] {
      assert Keys(d)[i] == req[i];
    }
  }

  /** Distinct, resolving requests give a dict of exactly those aliases, none
      of them `None`. */
  lemma UserDictAllResolve(config: Config, req: seq<string>)
    requires Distinct(req)
    requires forall i :: 0 <= i < |req| ==> Resolves(config, req[i])
    ensures Keys(UserDict(config, req)) == req
    ensures forall i :: 0 <= i < |UserDict(config, req)| ==> UserDict(config, req)[i].1 != Null
  {
    var d := UserDict(config, req);
    DedupDistinct(req);
    assert Keys(d) == req;
    forall i | 0 <= i < |d| ensures d[i].1 != Null {
      assert d[i].0 == req[i];
      assert Resolves(config, req[i]);
    }
  }

  /** When the filter keeps every item, the recipients are the whole dict. */
  lemma ResolveWhenAllKept(config: Config, req: seq<string>)
    requires |req| >= 1
    requires Resolved(UserDict(config, req)) == UserDict(config, req)
    ensures Resolve(config, req) == Success(Recipients(Keys(UserDict(config, req)), Ids(UserDict(config, req))))
  {
  }
}
