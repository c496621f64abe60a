/**
 * The route table of the gameplay script host
 * (scripting/gameplay/src/gameplay_script_host.cpp): the index by key against a scan
 * of the manifest.
 */
module RouteTable {

  import opened Basics
  import opened Manifests

  /** A loaded script: the hooks it serves and the keys it is for; no keys means every key. */
  datatype Entry = Entry(hooks: seq<Hook>, keys: seq<string>)

  /** The key under which the table keeps the scripts without keys. */
  const WILDCARD: string := [1 as char, '*']

  // ----- selections -----

  /** A list with x behind it, if it is wanted. */
  function Extended(s: seq<nat>, x: nat, wanted: bool): (r: seq<nat>)
    ensures forall y :: y in r <==> y in s || (wanted && y == x)
  {
    if wanted then s + [x] else s
  }

  /** The numbers below n that satisfy p, in order. */
  function Select(n: nat, p: nat -> bool): (s: seq<nat>)
    ensures forall i: nat :: i in s <==> i < n && p(i)
    ensures forall j, k :: 0 <= j < k < |s| ==> s[j] < s[k]
  {
    if n == 0 then [] else
    var s := Select(n - 1, p);
    assert forall j :: 0 <= j < |s| ==> s[j] in s;
    Extended(s, n - 1, p(n - 1))
  }

  /** Two selections are the same list exactly if they select the same numbers. */
  lemma {:induction false} SameSelectionIff(n: nat, p: nat -> bool, q: nat -> bool)
    ensures Select(n, p) == Select(n, q) <==> forall i: nat :: i < n ==> p(i) == q(i)
  {
    if forall i: nat :: i < n ==> p(i) == q(i) {
      if n > 0 {
        SameSelectionIff(n - 1, p, q);
      }
    } else {
      var i: nat :| i < n && p(i) != q(i);
      assert i in Select(n, p) <==> i !in Select(n, q);
    }
  }

  /** The elements of a list that satisfy q, in order. */
  function Chosen(s: seq<nat>, q: nat -> bool): (r: seq<nat>)
    ensures forall x :: x in r <==> x in s && q(x)
  {
    if |s| == 0 then [] else
    assert s == s[..|s| - 1] + [s[|s| - 1]];
    Extended(Chosen(s[..|s| - 1], q), s[|s| - 1], q(s[|s| - 1]))
  }

  /** Choosing from a selection is selecting by both conditions. */
  lemma {:induction false} ChosenFromSelect(n: nat, p: nat -> bool, q: nat -> bool, r: nat -> bool)
    requires forall i: nat :: i < n ==> r(i) == (p(i) && q(i))
    ensures Chosen(Select(n, p), q) == Select(n, r)
  {
    if n == 0 {
    } else {
      ChosenFromSelect(n - 1, p, q, r);
      var s := Select(n - 1, p);
      if p(n - 1) {
        assert (s + [n - 1])[..|s|] == s;
      }
    }
  }

  // ----- what a lookup should give -----

  predicate Serves(entries: seq<Entry>, hook: Hook, i: nat) {
    i < |entries| && hook in entries[i].hooks
  }

  predicate Keyless(entries: seq<Entry>, i: nat) {
    i < |entries| && |entries[i].keys| == 0
  }

  predicate HasKey(entries: seq<Entry>, key: string, i: nat) {
    i < |entries| && key in entries[i].keys
  }

  /** Is script i in the list the table keeps for a key? */
  predicate Listed(entries: seq<Entry>, key: string, i: nat) {
    (Keyless(entries, i) && key == WILDCARD) || HasKey(entries, key, i)
  }

  function IsListed(entries: seq<Entry>, key: string): nat -> bool {
    (i: nat) => Listed(entries, key, i)
  }

  function IsNew(entries: seq<Entry>, hook: Hook, taken: seq<nat>): nat -> bool {
    (i: nat) => Serves(entries, hook, i) && i !in taken
  }

  function IsNewListed(entries: seq<Entry>, hook: Hook, key: string, taken: seq<nat>): nat -> bool {
    (i: nat) => Listed(entries, key, i) && Serves(entries, hook, i) && i !in taken
  }

  function ServesKey(entries: seq<Entry>, hook: Hook, key: string): nat -> bool {
    (i: nat) => Serves(entries, hook, i) && HasKey(entries, key, i)
  }

  function ServesAll(entries: seq<Entry>, hook: Hook): nat -> bool {
    (i: nat) => Serves(entries, hook, i) && Keyless(entries, i)
  }

  /**
   * By scanning: the scripts that list the key, then the scripts without keys, each in the order
   * of the manifest. The empty key stands for no key.
   */
  function Scan(entries: seq<Entry>, hook: Hook, key: string): seq<nat> {
    (if |key| == 0 then [] else Select(|entries|, ServesKey(entries, hook, key)))
    + Select(|entries|, ServesAll(entries, hook))
  }

  /** By the table: the serving scripts of the key's list, none for the empty key. */
  function FromKey(entries: seq<Entry>, hook: Hook, key: string): seq<nat> {
    if |key| == 0 then [] else Select(|entries|, IsNewListed(entries, hook, key, []))
  }

  /** By the table: the list of the key, then the list of the wildcard without what is there already. */
  function Collected(entries: seq<Entry>, hook: Hook, key: string): seq<nat> {
    var keyed := FromKey(entries, hook, key);
    keyed + Select(|entries|, IsNewListed(entries, hook, WILDCARD, keyed))
  }

  /** Does a serving script without keys stand before a serving one that lists the wildcard? */
  predicate KeylessFirst(entries: seq<Entry>, hook: Hook) {
    exists i: nat, j: nat :: i < j < |entries| && ServesAll(entries, hook)(i) && ServesKey(entries, hook, WILDCARD)(j)
  }

  /** Does every serving script that lists the wildcard as a key of its own list this key too? */
  predicate WildcardCovered(entries: seq<Entry>, hook: Hook, key: string) {
    forall i: nat :: i < |entries| && ServesKey(entries, hook, WILDCARD)(i) ==> |key| > 0 && HasKey(entries, key, i)
  }

  /**
   * When the table gives what the scan gives, for every key: scripts that list the wildcard as a
   * key of their own must list the key that is looked up; for the wildcard itself, which they all
   * list, they must stand before the scripts without keys.
   */
  lemma TableIsScanIff(entries: seq<Entry>, hook: Hook, key: string)
    ensures Collected(entries, hook, key) == Scan(entries, hook, key)
            <==> if key == WILDCARD then !KeylessFirst(entries, hook) else WildcardCovered(entries, hook, key)
  {
    if key == WILDCARD {
      WildcardLookupIff(entries, hook);
    } else {
      KeyLookupIff(entries, hook, key);
    }
  }

  lemma KeyLookupIff(entries: seq<Entry>, hook: Hook, key: string)
    requires key != WILDCARD
    ensures Collected(entries, hook, key) == Scan(entries, hook, key) <==> WildcardCovered(entries, hook, key)
  {
    var n := |entries|;
    var keyed := FromKey(entries, hook, key);
    SameSelectionIff(n, IsNewListed(entries, hook, key, []), ServesKey(entries, hook, key));
    var q, q' := IsNewListed(entries, hook, WILDCARD, keyed), ServesAll(entries, hook);
    SameSelectionIff(n, q, q');
    SameTail(keyed, Select(n, q), Select(n, q'));
    forall i: nat | i < n
      ensures q(i) == q'(i) <==> (ServesKey(entries, hook, WILDCARD)(i) ==> |key| > 0 && HasKey(entries, key, i))
    {
      assert i in keyed <==> |key| > 0 && ServesKey(entries, hook, key)(i);
    }
  }

  lemma WildcardLookupIff(entries: seq<Entry>, hook: Hook)
    ensures Collected(entries, hook, WILDCARD) == Scan(entries, hook, WILDCARD) <==> !KeylessFirst(entries, hook)
  {
    var n := |entries|;
    var keyed := FromKey(entries, hook, WILDCARD);
    var a, b := ServesKey(entries, hook, WILDCARD), ServesAll(entries, hook);
    var either := IsNewListed(entries, hook, WILDCARD, []);
    assert keyed == Select(n, either);
    NothingSelected(n, IsNewListed(entries, hook, WILDCARD, keyed));
    assert Collected(entries, hook, WILDCARD) == Select(n, either);
    SelectionsJoinIff(n, a, b, either);
  }

  lemma {:induction false} NothingSelected(n: nat, p: nat -> bool)
    requires forall i: nat :: i < n ==> !p(i)
    ensures Select(n, p) == []
  {
    if n == 0 {
    } else {
      NothingSelected(n - 1, p);
    }
  }

  /**
   * Two separate selections, one behind the other, are the selection of both exactly if the second never
   * comes first.
   */
  lemma SelectionsJoinIff(n: nat, a: nat -> bool, b: nat -> bool, either: nat -> bool)
    requires forall i: nat :: i < n ==> (either(i) <==> a(i) || b(i)) && !(a(i) && b(i))
    ensures Select(n, either) == Select(n, a) + Select(n, b) <==> !exists i: nat, j: nat :: i < j < n && b(i) && a(j)
  {
    if i: nat, j: nat :| i < j < n && b(i) && a(j) {
      hide Select;
      OutOfOrder(Select(n, a), Select(n, b), j, i);
    } else {
      SelectionsJoin(n, a, b, either);
    }
  }

  /** No element of the second selection comes before one of the first. */
  predicate InOrder(n: nat, a: nat -> bool, b: nat -> bool) {
    forall i: nat, j: nat :: i < j < n && b(i) ==> !a(j)
  }

  lemma {:induction false} SelectionsJoin(n: nat, a: nat -> bool, b: nat -> bool, either: nat -> bool)
    requires forall i: nat :: i < n ==> (either(i) <==> a(i) || b(i)) && !(a(i) && b(i))
    requires InOrder(n, a, b)
    ensures Select(n, either) == Select(n, a) + Select(n, b)
  {
    if n == 0 {
    } else {
      NoneBehind(n - 1, a, b);
      hide InOrder, Extended;
      SelectionsJoin(n - 1, a, b, either);
      ExtendBoth(Select(n - 1, a), Select(n - 1, b), n - 1, a(n - 1), b(n - 1));
      assert either(n - 1) == (a(n - 1) || b(n - 1));
    }
  }

  lemma NoneBehind(n: nat, a: nat -> bool, b: nat -> bool)
    requires InOrder(n + 1, a, b)
    ensures InOrder(n, a, b) && (a(n) ==> Select(n, b) == [])
  {
    if a(n) {
      forall i: nat | i < n ensures !b(i) {
      }
      NothingSelected(n, b);
    }
  }

  lemma ExtendBoth(s: seq<nat>, t: seq<nat>, x: nat, inS: bool, inT: bool)
    requires !(inS && inT) && (inS ==> t == [])
    ensures Extended(s + t, x, inS || inT) == Extended(s, x, inS) + Extended(t, x, inT)
  {
  }

  lemma OutOfOrder(s: seq<nat>, t: seq<nat>, x: nat, y: nat)
    requires x in s && y in t && y < x
    ensures !forall j, k :: 0 <= j < k < |s + t| ==> (s + t)[j] < (s + t)[k]
  {
    var j :| 0 <= j < |s| && s[j] == x;
    var k :| 0 <= k < |t| && t[k] == y;
    assert (s + t)[j] == x && (s + t)[|s| + k] == y;
  }

  lemma SameTail(a: seq<nat>, b: seq<nat>, c: seq<nat>)
    ensures a + b == a + c <==> b == c
  {
    assert (a + b)[|a|..] == b && (a + c)[|a|..] == c;
  }

  /** No script is collected twice, whatever the keys. */
  lemma CollectedOnce(entries: seq<Entry>, hook: Hook, key: string)
    ensures Distinct(Collected(entries, hook, key))
  {
    var keyed := FromKey(entries, hook, key);
    var rest := Select(|entries|, IsNewListed(entries, hook, WILDCARD, keyed));
    forall j, k | 0 <= j < k < |keyed + rest| ensures (keyed + rest)[j] != (keyed + rest)[k] {
      if j < |keyed| <= k {
        assert rest[k - |keyed|] in rest && keyed[j] in keyed;
      }
    }
  }

  /** A manifest for which the table answers more than the scan: a script whose own key is the wildcard. */
  lemma WildcardAsKey()
    ensures var entries := [Entry([QuestEvent], [WILDCARD])];
            Collected(entries, QuestEvent, "boss") != Scan(entries, QuestEvent, "boss")
  {
    var entries := [Entry([QuestEvent], [WILDCARD])];
    assert |"boss"| == 4 && |WILDCARD| == 2;
    assert ServesKey(entries, QuestEvent, WILDCARD)(0) && !HasKey(entries, "boss", 0);
    TableIsScanIff(entries, QuestEvent, "boss");
  }

  /** A manifest for which it answers in another order. */
  lemma WildcardBehindKeyless()
    ensures var entries := [Entry([QuestEvent], []), Entry([QuestEvent], [WILDCARD])];
            Collected(entries, QuestEvent, WILDCARD) != Scan(entries, QuestEvent, WILDCARD)
  {
    var entries := [Entry([QuestEvent], []), Entry([QuestEvent], [WILDCARD])];
    assert ServesAll(entries, QuestEvent)(0) && ServesKey(entries, QuestEvent, WILDCARD)(1);
    TableIsScanIff(entries, QuestEvent, WILDCARD);
  }

  // ----- the table -----

  function At(routes: map<string, seq<nat>>, key: string): seq<nat> {
    if key in routes then routes[key] else []
  }

  /** The table after the first n scripts. */
  ghost predicate RoutesOk(routes: map<string, seq<nat>>, entries: seq<Entry>, n: nat) {
    forall key :: At(routes, key) == Select(n, IsListed(entries, key))
  }

  /** Does a script without keys, or one that lists the internal key of those, serve the hook? */
  predicate ForAllKeys(e: Entry) {
    e.keys == [] || WILDCARD in e.keys
  }

  predicate ForKey(e: Entry, key: string) {
    |key| > 0 && (key in e.keys || (key == WILDCARD && e.keys == []))
  }

  /**
   * The scripts that are called: all that serve the hook and are for the key or for every key, first the n that
   * are for the key and then the others, each in the order of the manifest.
   */
  ghost predicate CalledInOrder(entries: seq<Entry>, hook: Hook, key: string, called: seq<nat>, n: nat) {
    && (forall i: nat :: i in called <==>
          i < |entries| && hook in entries[i].hooks && (ForKey(entries[i], key) || ForAllKeys(entries[i])))
    && n <= |called|
    && (forall j :: 0 <= j < |called| ==> called[j] < |entries| && (j < n <==> ForKey(entries[called[j]], key)))
    && (forall j, k :: 0 <= j < k < n ==> called[j] < called[k])
    && (forall j, k :: n <= j < k < |called| ==> called[j] < called[k])
  }

  lemma KeyedAre(entries: seq<Entry>, hook: Hook, key: string, keyed: seq<nat>)
    requires keyed == if |key| == 0 then [] else Select(|entries|, IsNewListed(entries, hook, key, []))
    ensures forall i: nat :: i in keyed <==> i < |entries| && hook in entries[i].hooks && ForKey(entries[i], key)
    ensures forall j, k :: 0 <= j < k < |keyed| ==> keyed[j] < keyed[k]
  {
    hide Select;
  }

  lemma OthersAre(entries: seq<Entry>, hook: Hook, keyed: seq<nat>, others: seq<nat>)
    requires others == Select(|entries|, IsNewListed(entries, hook, WILDCARD, keyed))
    ensures forall i: nat :: i in others <==>
              i < |entries| && hook in entries[i].hooks && ForAllKeys(entries[i]) && i !in keyed
    ensures forall j, k :: 0 <= j < k < |others| ==> others[j] < others[k]
  {
    hide Select;
  }

  lemma CollectedInOrder(entries: seq<Entry>, hook: Hook, key: string) returns (n: nat)
    ensures CalledInOrder(entries, hook, key, Collected(entries, hook, key), n)
  {
    var keyed := if |key| == 0 then [] else Select(|entries|, IsNewListed(entries, hook, key, []));
    var others := Select(|entries|, IsNewListed(entries, hook, WILDCARD, keyed));
    assert Collected(entries, hook, key) == keyed + others;
    KeyedAre(entries, hook, key, keyed);
    OthersAre(entries, hook, keyed, others);
    n := |keyed|;
    hide Collected, Select, IsNewListed, ForKey, ForAllKeys;
    JoinedAre(entries, hook, key, keyed, others);
  }

  lemma JoinedAre(entries: seq<Entry>, hook: Hook, key: string, keyed: seq<nat>, others: seq<nat>)
    requires forall i: nat :: i in keyed <==> i < |entries| && hook in entries[i].hooks && ForKey(entries[i], key)
    requires forall i: nat :: i in others <==>
               i < |entries| && hook in entries[i].hooks && ForAllKeys(entries[i]) && i !in keyed
    requires forall j, k :: 0 <= j < k < |keyed| ==> keyed[j] < keyed[k]
    requires forall j, k :: 0 <= j < k < |others| ==> others[j] < others[k]
    ensures CalledInOrder(entries, hook, key, keyed + others, |keyed|)
  {
    hide ForKey, ForAllKeys;
    var called := keyed + others;
    forall j | 0 <= j < |called| ensures called[j] < |entries| && (j < |keyed| <==> ForKey(entries[called[j]], key)) {
      assert j < |keyed| ==> called[j] == keyed[j] && keyed[j] in keyed;
      assert j >= |keyed| ==> called[j] == others[j - |keyed|] && others[j - |keyed|] in others;
    }
    assert forall i: nat :: i in called <==> i in keyed || i in others;
  }

  class GameplayScriptHost {
    var entries: seq<Entry>
    var routes: map<string, seq<nat>>
    var scratch: seq<nat>

    ghost predicate Valid()
      reads this
    {
      RoutesOk(routes, entries, |entries|)
    }

    /** The loaded scripts and the table over them. */
    constructor (loaded: seq<Entry>)
      ensures Valid() && entries == loaded && scratch == []
    {
      entries := loaded;
      routes := map[];
      scratch := [];
      new;
      BuildRoutes();
    }

    method BuildRoutes()
      requires routes == map[]
      modifies this`routes
      ensures Valid()
    {
      hide Listed, RoutesOk, Extended;
      EmptyTable(entries);
      for i := 0 to |entries|
        invariant RoutesOk(routes, entries, i)
      {
        ghost var before := routes;
        if |entries[i].keys| == 0 {
          WildcardEntry(before, entries, i);
          routes := routes[WILDCARD := At(routes, WILDCARD) + [i]];
        } else {
          AddKeys(i);
          KeyedEntry(entries, i);
        }
        OneScriptMore(before, routes, entries, i);
      }
    }

    /** The entries of one script that has keys; inline in the source's LoadManifest. */
    method AddKeys(i: nat)
      requires i < |entries| && RoutesOk(routes, entries, i)
      modifies this`routes
      ensures forall key :: At(routes, key) == Extended(At(old(routes), key), i, key in entries[i].keys)
    {
      hide Listed, RoutesOk;
      var keys := entries[i].keys;
      for k := 0 to |keys|
        invariant forall key :: At(routes, key) == Extended(At(old(routes), key), i, key in keys[..k])
      {
        hide Extended;
        var list := At(routes, keys[k]);
        ghost var sofar := routes;
        if i !in list {
          routes := routes[keys[k] := list + [i]];
        }
        OneKeyMore(old(routes), sofar, routes, entries, keys, i, k);
      }
      assert keys[..|keys|] == keys;
    }

    /** Leaves in `scratch` the scripts to call for a hook and a key. */
    method CollectRoutes(hook: Hook, key: string)
      requires Valid()
      modifies this`scratch
      ensures scratch == Collected(entries, hook, key)
      ensures exists n :: CalledInOrder(entries, hook, key, scratch, n)
    {
      hide RoutesOk;
      ghost var n := CollectedInOrder(entries, hook, key);
      scratch := [];
      if |key| > 0 {
        Collect(hook, key);
        assert scratch == Select(|entries|, IsNewListed(entries, hook, key, []));
      }
      Collect(hook, WILDCARD);
    }

    /** Appends the serving scripts of one list that are not there yet. */
    method Collect(hook: Hook, key: string)
      requires Valid()
      modifies this`scratch
      ensures scratch == old(scratch) + Select(|entries|, IsNewListed(entries, hook, key, old(scratch)))
    {
      ChosenFromSelect(|entries|, IsListed(entries, key), IsNew(entries, hook, scratch),
                       IsNewListed(entries, hook, key, scratch));
      assert At(routes, key) == Select(|entries|, IsListed(entries, key));
      hide RoutesOk, IsListed, IsNew, IsNewListed, Select;
      if key !in routes {
        return;
      }
      CollectList(routes[key], hook);
    }

    method CollectList(list: seq<nat>, hook: Hook)
      requires forall j, k :: 0 <= j < k < |list| ==> list[j] != list[k]
      modifies this`scratch
      ensures scratch == old(scratch) + Chosen(list, IsNew(entries, hook, old(scratch)))
    {
      ghost var isNew := IsNew(entries, hook, scratch);
      for m := 0 to |list|
        invariant scratch == old(scratch) + Chosen(list[..m], isNew)
      {
        assert list[..m + 1][..m] == list[..m];
        var index := list[m];
        assert index !in list[..m];
        if Serves(entries, hook, index) {
          if index !in scratch {
            scratch := scratch + [index];
          }
        }
      }
      assert list[..|list|] == list;
    }
  }

  lemma EmptyTable(entries: seq<Entry>)
    ensures RoutesOk(map[], entries, 0)
  {
  }

  lemma WildcardEntry(before: map<string, seq<nat>>, entries: seq<Entry>, i: nat)
    requires i < |entries| && |entries[i].keys| == 0
    ensures var after := before[WILDCARD := At(before, WILDCARD) + [i]];
            forall key :: At(after, key) == Extended(At(before, key), i, Listed(entries, key, i))
  {
  }

  lemma KeyedEntry(entries: seq<Entry>, i: nat)
    requires i < |entries| && |entries[i].keys| > 0
    ensures forall key :: Listed(entries, key, i) <==> key in entries[i].keys
  {
  }

  /** One more key of script i: its number is in the list of every key met so far, once. */
  lemma OneKeyMore(before: map<string, seq<nat>>, sofar: map<string, seq<nat>>, after: map<string, seq<nat>>,
                   entries: seq<Entry>, keys: seq<string>, i: nat, k: nat)
    requires RoutesOk(before, entries, i) && k < |keys|
    requires forall key :: At(sofar, key) == Extended(At(before, key), i, key in keys[..k])
    requires after == if i !in At(sofar, keys[k]) then sofar[keys[k] := At(sofar, keys[k]) + [i]] else sofar
    ensures forall key :: At(after, key) == Extended(At(before, key), i, key in keys[..k + 1])
  {
    assert keys[..k + 1] == keys[..k] + [keys[k]];
    assert i !in At(before, keys[k]) by {
      assert At(before, keys[k]) == Select(i, IsListed(entries, keys[k]));
    }
    hide RoutesOk;
    forall key ensures At(after, key) == Extended(At(before, key), i, key in keys[..k + 1]) {
      assert At(sofar, key) == Extended(At(before, key), i, key in keys[..k]);
      assert key in keys[..k + 1] <==> key in keys[..k] || key == keys[k];
    }
  }

  lemma OneScriptMore(before: map<string, seq<nat>>, after: map<string, seq<nat>>, entries: seq<Entry>, i: nat)
    requires RoutesOk(before, entries, i) && i < |entries|
    requires forall key :: At(after, key) == Extended(At(before, key), i, Listed(entries, key, i))
    ensures RoutesOk(after, entries, i + 1)
  {
    forall key ensures At(after, key) == Select(i + 1, IsListed(entries, key)) {
      assert At(before, key) == Select(i, IsListed(entries, key));
    }
  }
}
