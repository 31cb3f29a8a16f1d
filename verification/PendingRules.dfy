/** The search for a loop of pending rules (`GetFromPending` in `char_chunk.cc`): a depth-first
    search bounded in depth. The table is any function from a key to its predictive entries. */
module PendingRules {

  datatype Attributes = Attributes(newChunk: bool, noTransliteration: bool, directInput: bool, endChunk: bool)

  datatype Entry = Entry(input: string, result: string, pending: string, attributes: Attributes)

  type Rules = string -> seq<Entry>

  const MAX_RECURSION: nat := 4

  ghost predicate ClosedUpTo(rules: Rules, key: string, keys: set<string>, n: nat) {
    n <= |rules(key)| && forall i :: 0 <= i < n ==> rules(key)[i].result == "" && rules(key)[i].pending in keys
  }

  // Every entry of the key has no result and leads to a key of the set.
  ghost predicate Closed(rules: Rules, key: string, keys: set<string>) {
    ClosedUpTo(rules, key, keys, |rules(key)|)
  }

  ghost predicate Leads(rules: Rules, from: string, to: string) {
    exists e :: e in rules(from) && e.pending == to
  }

  // A chain of keys, each the pending string of an entry of the one before.
  ghost predicate Chain(rules: Rules, path: seq<string>) {
    path != [] && forall i :: 0 <= i < |path| - 1 ==> Leads(rules, path[i], path[i + 1])
  }

  ghost predicate Reaches(rules: Rules, from: string, to: string) {
    exists path :: Chain(rules, path) && path[0] == from && path[|path| - 1] == to
  }

  ghost predicate HasResult(rules: Rules, key: string) {
    exists e :: e in rules(key) && e.result != ""
  }

  // Why a search of the given depth fails: a chain that ends at a key with a result, or one that
  // is too long.
  ghost predicate Blocked(rules: Rules, path: seq<string>, depth: nat) {
    Chain(rules, path) &&
    ((|path| <= depth && HasResult(rules, path[|path| - 1])) || |path| == depth + 1)
  }

  lemma {:induction false} ChainCons(rules: Rules, key: string, path: seq<string>)
    requires Chain(rules, path) && Leads(rules, key, path[0])
    ensures Chain(rules, [key] + path)
  {
  }

  lemma {:induction false} ReachesItself(rules: Rules, key: string)
    ensures Reaches(rules, key, key)
  {
    assert Chain(rules, [key]);
  }

  lemma {:induction false} ReachesFurther(rules: Rules, key: string, via: string, to: string)
    requires Leads(rules, key, via) && Reaches(rules, via, to)
    ensures Reaches(rules, key, to)
  {
    var path :| Chain(rules, path) && path[0] == via && path[|path| - 1] == to;
    ChainCons(rules, key, path);
    var longer := [key] + path;
    assert Chain(rules, longer) && longer[0] == key && longer[|longer| - 1] == to;
  }

  // The keys added by a finished search are closed.
  ghost predicate NewAreClosed(rules: Rules, before: set<string>, after: set<string>) {
    before <= after && forall k :: k in after && k !in before ==> Closed(rules, k, after)
  }

  lemma {:induction false} StillClosed(rules: Rules, before: set<string>, middle: set<string>, after: set<string>)
    requires NewAreClosed(rules, before, middle) && NewAreClosed(rules, middle, after)
    ensures NewAreClosed(rules, before, after)
  {
  }

  method GetFromPending(rules: Rules, key: string, recursionCount: nat, result: set<string>)
    returns (ok: bool, result': set<string>, ghost path: seq<string>)
    ensures result <= result'
    ensures forall k :: k in result' && k !in result ==> Reaches(rules, key, k)
    ensures ok ==> recursionCount > 0 && key in result' && NewAreClosed(rules, result, result')
    ensures !ok ==> Blocked(rules, path, recursionCount) && path[0] == key
    decreases recursionCount
  {
    path := [key];
    result' := result;
    if recursionCount == 0 {
      return false, result', path;
    }
    if key in result {
      return true, result', path;
    }
    result' := result + {key};
    ReachesItself(rules, key);
    var entries := rules(key);
    // The keys added while the entries are tried, all but the key itself, are closed already.
    for i := 0 to |entries|
      invariant result + {key} <= result'
      invariant forall k :: k in result' && k !in result ==> Reaches(rules, key, k)
      invariant NewAreClosed(rules, result + {key}, result')
      invariant ClosedUpTo(rules, key, result', i)
    {
      var entry := entries[i];
      if entry.result != "" {
        assert HasResult(rules, key);
        return false, result', [key];
      }
      var found, more;
      ghost var deeper;
      found, more, deeper := GetFromPending(rules, entry.pending, recursionCount - 1, result');
      assert Leads(rules, key, entry.pending);
      if !found {
        ChainCons(rules, key, deeper);
        path := [key] + deeper;
      }
      forall k | k in more && k !in result
        ensures Reaches(rules, key, k)
      {
        if k !in result' {
          ReachesFurther(rules, key, entry.pending, k);
        }
      }
      if !found {
        return false, more, path;
      }
      StillClosed(rules, result + {key}, result', more);
      result' := more;
    }
    ok := true;
  }

  lemma {:induction false} ChainStaysInside(rules: Rules, keys: set<string>, path: seq<string>, i: nat)
    requires Chain(rules, path) && path[0] in keys && i < |path|
    requires forall k :: k in keys ==> Closed(rules, k, keys)
    ensures path[i] in keys
  {
    if i > 0 {
      ChainStaysInside(rules, keys, path, i - 1);
      var e :| e in rules(path[i - 1]) && e.pending == path[i];
      var j :| 0 <= j < |rules(path[i - 1])| && rules(path[i - 1])[j] == e;
    }
  }

  // A search from the empty set that succeeds yields exactly the keys that can be reached.
  lemma {:induction false} ClosedIsReachable(rules: Rules, key: string, keys: set<string>)
    requires key in keys && (forall k :: k in keys ==> Reaches(rules, key, k))
    requires NewAreClosed(rules, {}, keys)
    ensures forall k :: k in keys <==> Reaches(rules, key, k)
  {
    forall k | Reaches(rules, key, k)
      ensures k in keys
    {
      var path :| Chain(rules, path) && path[0] == key && path[|path| - 1] == k;
      ChainStaysInside(rules, keys, path, |path| - 1);
    }
  }

  // The loop of a rule: all keys reachable from it, if the search finds that they form a loop.
  method FindLoop(rules: Rules, key: string) returns (ok: bool, keys: set<string>)
    ensures ok ==> (forall k :: k in keys <==> Reaches(rules, key, k)) && forall k :: k in keys ==> Closed(rules, k, keys)
    ensures !ok ==> exists path :: Chain(rules, path) && path[0] == key &&
                                   (|path| == 5 || (|path| <= 4 && HasResult(rules, path[|path| - 1])))
  {
    ghost var path;
    ok, keys, path := GetFromPending(rules, key, MAX_RECURSION, {});
    if ok {
      forall k | k in keys
        ensures Reaches(rules, key, k)
      {
      }
      ClosedIsReachable(rules, key, keys);
    }
  }
}
