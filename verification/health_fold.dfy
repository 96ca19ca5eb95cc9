/**
 * The report status as a lattice fold: the join (maximum) of the check
 * levels under pass < warn < fail. The lemmas here show that the status
 * computed in `HealthEnvelope.Status` is that fold, whatever order the map's
 * keys are visited in, however the checks are grouped and ordered within
 * their lists, and that adding a check can only raise it.
 */
module HealthFold {
  import opened HealthModels
  import opened HealthEnvelope

  /** The least upper bound of two levels. */
  function Join(a: Level, b: Level): (r: Level)
    ensures AtMost(a, r) && AtMost(b, r)
    ensures r == a || r == b
  {
    if AtMost(a, b) then b else a
  }

  /** Left fold of `Join` over a list of checks, starting from pass. */
  function JoinAll(cs: seq<Check>): (l: Level)
    ensures forall c :: c in cs ==> AtMost(LevelOf(c), l)
    ensures l == Pass || exists c :: c in cs && LevelOf(c) == l
  {
    if |cs| == 0 then Pass else Join(LevelOf(cs[0]), JoinAll(cs[1..]))
  }

  /** Concatenation of a sequence of lists. */
  function Flatten(groups: seq<seq<Check>>): (cs: seq<Check>)
    ensures forall c :: c in cs <==> exists g :: g in groups && c in g
  {
    if |groups| == 0 then [] else groups[0] + Flatten(groups[1..])
  }

  /** The lists of `checks`, visited in the key order `keys`. */
  function Groups(checks: Checks, keys: seq<string>): (gs: seq<seq<Check>>)
    requires forall k :: k in keys ==> k in checks
    ensures |gs| == |keys|
    ensures forall i :: 0 <= i < |keys| ==> gs[i] == checks[keys[i]]
  {
    if |keys| == 0 then [] else [checks[keys[0]]] + Groups(checks, keys[1..])
  }

  /** Two lists with the same members fold to the same level. */
  lemma {:induction false} SameMembersSameJoin(cs: seq<Check>, ds: seq<Check>)
    requires forall c :: c in cs <==> c in ds
    ensures JoinAll(cs) == JoinAll(ds)
  {
    var a, b := JoinAll(cs), JoinAll(ds);
    if a != Pass {
      var c :| c in cs && LevelOf(c) == a;
      assert AtMost(a, b);
    }
    if b != Pass {
      var c :| c in ds && LevelOf(c) == b;
      assert AtMost(b, a);
    }
  }

  /** The order of a list does not matter to its fold. */
  lemma {:induction false} JoinAllIgnoresOrder(cs: seq<Check>, ds: seq<Check>)
    requires multiset(cs) == multiset(ds)
    ensures JoinAll(cs) == JoinAll(ds)
  {
    forall c
      ensures c in cs <==> c in ds
    {
      assert c in cs <==> c in multiset(cs);
      assert c in ds <==> c in multiset(ds);
    }
    SameMembersSameJoin(cs, ds);
  }

  /**
   * Whatever order the keys of the map are enumerated in, folding every
   * check of every list gives the level of `Status`.
   */
  lemma {:induction false} StatusIsFoldInAnyKeyOrder(checks: Checks, keys: seq<string>)
    requires forall k :: k in keys <==> k in checks
    ensures JoinAll(Flatten(Groups(checks, keys))) == StatusLevel(Status(checks))
  {
    var gs := Groups(checks, keys);
    var cs := Flatten(gs);
    forall c
      ensures c in cs <==> exists k :: k in checks && c in checks[k]
    {
      if c in cs {
        var g :| g in gs && c in g;
        var i :| 0 <= i < |gs| && gs[i] == g;
        assert c in checks[keys[i]];
      }
      if exists k :: k in checks && c in checks[k] {
        var k :| k in checks && c in checks[k];
        var i :| 0 <= i < |keys| && keys[i] == k;
        assert gs[i] == checks[k];
      }
    }
    var a, b := JoinAll(cs), StatusLevel(Status(checks));
    if a != Pass {
      var c :| c in cs && LevelOf(c) == a;
      assert AtMost(a, b);
    }
    if b != Pass {
      var k, c :| k in checks && c in checks[k] && LevelOf(c) == b;
      assert c in cs;
      assert AtMost(b, a);
    }
  }

  /**
   * Pushing a check onto any list joins its level into the status: the
   * status after the push is the greater of the status before and the
   * level of the new check.
   */
  lemma {:induction false} PushJoinsLevel(checks: Checks, key: string, check: Check)
    ensures StatusLevel(Status(Push(checks, key, check))) == Join(StatusLevel(Status(checks)), LevelOf(check))
  {
    var pushed := Push(checks, key, check);
    var before, after := StatusLevel(Status(checks)), StatusLevel(Status(pushed));
    var j := Join(before, LevelOf(check));
    assert check in pushed[key];
    if before != Pass {
      var k, c :| k in checks && c in checks[k] && LevelOf(c) == before;
      assert c in pushed[k];
    }
    if after != Pass {
      var k, c :| k in pushed && c in pushed[k] && LevelOf(c) == after;
      if c != check {
        assert k in checks && c in checks[k];
      }
    }
  }

  /** Adding a check never lowers the status. */
  lemma PushNeverLowers(checks: Checks, key: string, check: Check)
    ensures AtMost(StatusLevel(Status(checks)), StatusLevel(Status(Push(checks, key, check))))
  {
    PushJoinsLevel(checks, key, check);
  }
}
