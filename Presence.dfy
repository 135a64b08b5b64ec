/**
 * The online snapshot of `online`: the remote pipeline yields two arrays of
 * usernames (live SSH sessions, recent proxy log entries), and each is
 * grouped into one `{user, count}` entry per distinct username.
 */
module Presence {

  /** One `{user, count}` entry of the snapshot. */
  datatype Entry = Entry(user: string, count: nat)

  /** The value `online` resolves with: `{ssh, v2ray}`. */
  datatype Snapshot = Snapshot(ssh: seq<Entry>, v2ray: seq<Entry>)

  /** No username appears twice. */
  predicate NoDuplicates(users: seq<string>) {
    forall i, j :: 0 <= i < j < |users| ==> users[i] != users[j]
  }

  /** The distinct usernames of `users`, in order of first appearance. */
  function Distinct(users: seq<string>): (d: seq<string>)
    ensures forall u :: u in d <==> u in users
    ensures NoDuplicates(d)
  {
    if users == [] then []
    else
      var init := users[..|users| - 1];
      var last := users[|users| - 1];
      var d := Distinct(init);
      assert forall u :: u in users <==> u in init || u == last by {
        assert users == init + [last];
      }
      if last in d then d else d + [last]
  }

  /** One more username at the end: it joins the distinct names unless already there. */
  lemma DistinctSnoc(users: seq<string>, u: string)
    ensures Distinct(users + [u]) == if u in users then Distinct(users) else Distinct(users) + [u]
  {
    assert (users + [u])[..|users|] == users;
  }

  /** The grouping `online` intends: one entry per distinct user, with its number of occurrences. */
  function Tallied(users: seq<string>): (entries: seq<Entry>) {
    var d := Distinct(users);
    seq(|d|, i requires 0 <= i < |d| => Entry(d[i], multiset(users)[d[i]]))
  }

  /** Sum of the counts of a list of entries. */
  function Total(entries: seq<Entry>): nat {
    if entries == [] then 0 else entries[0].count + Total(entries[1..])
  }

  /** Sum of the multiplicities in `m` of the names in `names`. */
  function SumOver(names: seq<string>, m: multiset<string>): nat {
    if names == [] then 0 else m[names[0]] + SumOver(names[1..], m)
  }

  /** The snapshot's entries: one per distinct user, each with that user's occurrence count. */
  lemma TalliedEntries(users: seq<string>)
    ensures forall u :: u in users <==> exists i :: 0 <= i < |Tallied(users)| && Tallied(users)[i].user == u
    ensures forall i, j :: 0 <= i < j < |Tallied(users)| ==> Tallied(users)[i].user != Tallied(users)[j].user
    ensures forall i :: 0 <= i < |Tallied(users)| ==> Tallied(users)[i].count == multiset(users)[Tallied(users)[i].user] > 0
  {
    var d := Distinct(users);
    var t := Tallied(users);
    forall u | u in users ensures exists i :: 0 <= i < |t| && t[i].user == u {
      assert u in d;
      var i :| 0 <= i < |d| && d[i] == u;
      assert t[i].user == u;
    }
    forall i | 0 <= i < |t| ensures t[i].count > 0 {
      assert d[i] in d;
    }
  }

  /** The counts of the snapshot add up to the length of the input array. */
  lemma TalliedTotal(users: seq<string>)
    ensures Total(Tallied(users)) == |users|
  {
    TotalIsSumOver(Distinct(users), multiset(users));
    DistinctSum(users);
  }

  lemma {:induction false} TotalIsSumOver(d: seq<string>, m: multiset<string>)
    ensures Total(seq(|d|, i requires 0 <= i < |d| => Entry(d[i], m[d[i]]))) == SumOver(d, m)
  {
    if d != [] {
      var es := seq(|d|, i requires 0 <= i < |d| => Entry(d[i], m[d[i]]));
      var d' := d[1..];
      var es' := seq(|d'|, i requires 0 <= i < |d'| => Entry(d'[i], m[d'[i]]));
      assert es[1..] == es';
      TotalIsSumOver(d', m);
    }
  }

  /** Adding one occurrence of `x` raises the sum over distinct names by one exactly when `x` is among them. */
  lemma {:induction false} SumOverAdd(names: seq<string>, m: multiset<string>, x: string)
    requires NoDuplicates(names)
    ensures SumOver(names, m + multiset{x}) == SumOver(names, m) + (if x in names then 1 else 0)
  {
    if names != [] {
      assert NoDuplicates(names[1..]) by {
        forall i, j | 0 <= i < j < |names[1..]| ensures names[1..][i] != names[1..][j] {
          assert names[1..][i] == names[i + 1] && names[1..][j] == names[j + 1];
        }
      }
      SumOverAdd(names[1..], m, x);
      if names[0] == x {
        assert x !in names[1..] by {
          forall i | 0 <= i < |names[1..]| ensures names[1..][i] != x {
            assert names[1..][i] == names[i + 1];
          }
        }
      }
      assert x in names <==> x == names[0] || x in names[1..] by {
        assert names == [names[0]] + names[1..];
      }
    }
  }

  /** Appending a name at the end adds its multiplicity to the sum. */
  lemma {:induction false} SumOverAppend(names: seq<string>, x: string, m: multiset<string>)
    ensures SumOver(names + [x], m) == SumOver(names, m) + m[x]
  {
    if names != [] {
      assert (names + [x])[1..] == names[1..] + [x];
      SumOverAppend(names[1..], x, m);
    }
  }

  /** Every occurrence is counted exactly once across the distinct names. */
  lemma {:induction false} DistinctSum(users: seq<string>)
    ensures SumOver(Distinct(users), multiset(users)) == |users|
  {
    if users != [] {
      var init := users[..|users| - 1];
      var last := users[|users| - 1];
      assert users == init + [last];
      assert multiset(users) == multiset(init) + multiset{last};
      var d := Distinct(init);
      DistinctSum(init);
      SumOverAdd(d, multiset(init), last);
      if last !in d {
        SumOverAppend(d, last, multiset(users));
        assert multiset(init)[last] == 0;
      }
    }
  }

  /** `counts` and its insertion order `order` are the dictionary after counting `seen`. */
  ghost predicate Counted(seen: seq<string>, counts: map<string, nat>, order: seq<string>) {
    && order == Distinct(seen)
    && (forall u :: u in counts <==> u in seen)
    && (forall u :: u in counts ==> counts[u] == multiset(seen)[u])
  }

  /** One `counts[user] = (counts[user] || 0) + 1` step keeps `Counted`. */
  lemma CountedStep(seen: seq<string>, counts: map<string, nat>, order: seq<string>, u: string)
    requires Counted(seen, counts, order)
    ensures u in counts ==> Counted(seen + [u], counts[u := counts[u] + 1], order)
    ensures u !in counts ==> Counted(seen + [u], counts[u := 1], order + [u])
  {
    var next := multiset(seen)[u] + 1;
    DistinctSnoc(seen, u);
    KeysStep(seen, counts, u, next);
    CountsStep(seen, counts, u);
    if u in counts {
      assert counts[u := counts[u] + 1] == counts[u := next];
    } else {
      assert u !in seen;
      assert counts[u := 1] == counts[u := next];
    }
  }

  /** Adding `u` to the seen names and to the keys keeps them the same set. */
  lemma KeysStep<V>(seen: seq<string>, m: map<string, V>, u: string, x: V)
    requires forall v :: v in m <==> v in seen
    ensures forall v :: v in m[u := x] <==> v in seen + [u]
  {
    forall v ensures v in m[u := x] <==> v in seen + [u] {
      assert v in seen + [u] <==> v in seen || v == u;
    }
  }

  /** Storing the next count of `u` keeps every stored count equal to the number of occurrences. */
  lemma CountsStep(seen: seq<string>, counts: map<string, nat>, u: string)
    requires forall v :: v in counts ==> counts[v] == multiset(seen)[v]
    ensures forall v :: v in counts[u := multiset(seen)[u] + 1] ==>
              counts[u := multiset(seen)[u] + 1][v] == multiset(seen + [u])[v]
  {
    assert multiset(seen + [u]) == multiset(seen) + multiset{u};
  }

  /** A `forEach` of `online` that fills a dictionary of counts, with its key insertion order. */
  method Count(users: seq<string>) returns (counts: map<string, nat>, order: seq<string>)
    ensures Counted(users, counts, order)
  {
    counts, order := map[], [];
    var i := 0;
    while i < |users|
      invariant 0 <= i <= |users|
      invariant Counted(users[..i], counts, order)
    {
      var u := users[i];
      assert users[..i + 1] == users[..i] + [u];
      CountedStep(users[..i], counts, order, u);
      if u in counts {
        counts := counts[u := counts[u] + 1];
      } else {
        counts := counts[u := 1];
        order := order + [u];
      }
      i := i + 1;
    }
    assert users[..i] == users;
  }

  /** One array of `online`: the counting `forEach`, then `Object.entries(...).map(...)`. */
  method Tally(users: seq<string>) returns (entries: seq<Entry>)
    ensures entries == Tallied(users)
  {
    var counts, order := Count(users);
    entries := [];
    var j := 0;
    while j < |order|
      invariant 0 <= j <= |order|
      invariant |entries| == j
      invariant forall k :: 0 <= k < j ==> entries[k] == Entry(order[k], multiset(users)[order[k]])
    {
      assert order[j] in counts;
      entries := entries + [Entry(order[j], counts[order[j]])];
      j := j + 1;
    }
  }

  // ---------------------------------------------------------------------
  // The dictionary `online` builds is a plain object literal, so a
  // username that names a member of Object.prototype reads an inherited
  // value instead of `undefined`.  What follows models that lookup as written.

  /** The JavaScript values a count slot of the `{}` dictionary can hold or inherit. */
  datatype JsValue = Undefined | Num(n: int) | Str(s: string) | NativeFunction(name: string) | ObjectPrototype

  /** A count as `Object.entries` reports it. */
  datatype JsEntry = JsEntry(user: string, count: JsValue)

  /** The methods every plain object inherits from Object.prototype. */
  const PrototypeMethods: set<string> := {
    "constructor", "hasOwnProperty", "isPrototypeOf", "propertyIsEnumerable",
    "toLocaleString", "toString", "valueOf",
    "__defineGetter__", "__defineSetter__", "__lookupGetter__", "__lookupSetter__"
  }

  /** Usernames a `{}` literal does not treat as ordinary keys. */
  predicate Inherited(u: string) {
    u == "__proto__" || u in PrototypeMethods
  }

  /** `counts[k]` on an object literal with own properties `own`. */
  function Lookup(own: map<string, JsValue>, k: string): (v: JsValue)
    ensures k in own ==> v == own[k]
  {
    if k in own then own[k]
    else if k == "__proto__" then ObjectPrototype
    else if k in PrototypeMethods then NativeFunction(k)
    else Undefined
  }

  /** A name the object does not own reads `undefined` exactly when Object.prototype does not supply it. */
  lemma LookupInherited(own: map<string, JsValue>, k: string)
    requires k !in own
    ensures Lookup(own, k) == Undefined <==> !Inherited(k)
  {
  }

  /** The text `String(f)` gives for a native function. */
  function FunctionSource(name: string): string {
    if name == "constructor" then "function Object() { [native code] }"
    else "function " + name + "() { [native code] }"
  }

  /** `(v || 0) + 1`. */
  function Increment(v: JsValue): (r: JsValue)
    ensures v.Undefined? ==> r == Num(1)
    ensures v.Num? ==> r == Num(v.n + 1)
    ensures r.Num? <==> v.Undefined? || v.Num? || v == Str("")
  {
    match v
    case Undefined => Num(1)
    case Num(n) => Num(n + 1)
    case Str(s) => if s == "" then Num(1) else Str(s + "1")
    case NativeFunction(name) => Str(FunctionSource(name) + "1")
    case ObjectPrototype => Str("[object Object]1")
  }

  /** The dictionary's own properties and their insertion order after the `forEach`. */
  function JsCounts(users: seq<string>): (r: (map<string, JsValue>, seq<string>))
    ensures forall u :: u in r.0 <==> u in users && u != "__proto__"
    ensures forall u :: u in r.1 <==> u in r.0
    ensures NoDuplicates(r.1)
    ensures "__proto__" !in users ==> r.1 == Distinct(users)
  {
    if users == [] then (map[], [])
    else
      var init := users[..|users| - 1];
      var (own, order) := JsCounts(init);
      var u := users[|users| - 1];
      assert forall w :: w in users <==> w in init || w == u by {
        assert users == init + [u];
      }
      assert "__proto__" !in users ==> order == Distinct(init);
      var v := Increment(Lookup(own, u));
      if u == "__proto__" then (own, order)                  // the setter ignores a non-object
      else (own[u := v], if u in own then order else order + [u])
  }

  /** `Object.entries(counts).map(...)` over the own keys in `order`. */
  function JsEntries(own: map<string, JsValue>, order: seq<string>): (entries: seq<JsEntry>)
    requires forall u :: u in order ==> u in own
    ensures |entries| == |order|
    ensures forall i :: 0 <= i < |order| ==> entries[i] == JsEntry(order[i], own[order[i]])
  {
    seq(|order|, i requires 0 <= i < |order| => JsEntry(order[i], own[order[i]]))
  }

  /** `online`'s grouping as written, keys in insertion order. */
  function JsTally(users: seq<string>): (entries: seq<JsEntry>)
    ensures forall u :: u in users && u != "__proto__" <==> exists i :: 0 <= i < |entries| && entries[i].user == u
    ensures forall i, j :: 0 <= i < j < |entries| ==> entries[i].user != entries[j].user
    ensures "__proto__" !in users ==> |entries| == |Distinct(users)|
  {
    var (own, order) := JsCounts(users);
    JsEntriesUsers(own, order);
    JsEntries(own, order)
  }

  /** The entries name exactly the keys of `order`, none twice when `order` has no duplicate. */
  lemma JsEntriesUsers(own: map<string, JsValue>, order: seq<string>)
    requires forall u :: u in order ==> u in own
    requires NoDuplicates(order)
    ensures forall u :: u in order <==> exists i :: 0 <= i < |JsEntries(own, order)| && JsEntries(own, order)[i].user == u
    ensures forall i, j :: 0 <= i < j < |JsEntries(own, order)| ==> JsEntries(own, order)[i].user != JsEntries(own, order)[j].user
  {
    var entries := JsEntries(own, order);
    forall u | u in order ensures exists i :: 0 <= i < |entries| && entries[i].user == u {
      var i :| 0 <= i < |order| && order[i] == u;
      assert entries[i].user == u;
    }
  }

  /** The intended grouping of a one-name array: that name, counted once. */
  lemma TalliedSingle(u: string)
    ensures Tallied([u]) == [Entry(u, 1)]
  {
    assert [u][..0] == [];
    assert Distinct([u]) == [u];
    assert multiset([u])[u] == 1;
  }

  /** The dictionary as written after one name other than `__proto__`: that name, with its first bumped value. */
  lemma JsCountsSingle(u: string)
    requires u != "__proto__"
    ensures JsCounts([u]) == (map[u := Increment(Lookup(map[], u))], [u])
  {
    assert [u][..0] == [];
    assert JsCounts([]) == (map[], []);
    var v := Increment(Lookup(map[], u));
    assert map[][u := v] == map[u := v];
    assert [] + [u] == [u];
  }

  /** As written, a user named "constructor" gets a text count rather than 1. */
  lemma ConstructorCountIsText()
    ensures JsTally(["constructor"]) == [JsEntry("constructor", Str("function Object() { [native code] }1"))]
    ensures Tallied(["constructor"]) == [Entry("constructor", 1)]
  {
    var text := "function Object() { [native code] }1";
    assert Increment(Lookup(map[], "constructor")) == Str(text) by {
      assert Lookup(map[], "constructor") == NativeFunction("constructor");
      assert FunctionSource("constructor") + "1" == text;
    }
    JsCountsSingle("constructor");
    TalliedSingle("constructor");
  }

  /** As written, a user named "__proto__" is left out of the snapshot. */
  lemma ProtoUserDropped()
    ensures JsTally(["__proto__"]) == []
    ensures Tallied(["__proto__"]) == [Entry("__proto__", 1)]
  {
    assert ["__proto__"][..0] == [];
    TalliedSingle("__proto__");
  }

  /** The dictionary as written holds `Num` counts matching `Counted` for the names seen so far. */
  ghost predicate JsCounted(seen: seq<string>, own: map<string, JsValue>, order: seq<string>) {
    && order == Distinct(seen)
    && (forall u :: u in own <==> u in seen)
    && (forall u :: u in own ==> own[u] == Num(multiset(seen)[u]))
  }

  /** For an ordinary username, `(counts[u] || 0) + 1` as written is the next numeric count. */
  lemma JsBump(seen: seq<string>, own: map<string, JsValue>, order: seq<string>, u: string)
    requires JsCounted(seen, own, order) && !Inherited(u)
    ensures Increment(Lookup(own, u)) == Num(multiset(seen)[u] + 1)
  {
    if u !in own {
      assert u !in seen;
    }
  }

  /** One step of the `forEach` as written, once the new value is known to be the next count. */
  lemma JsCountedStep(seen: seq<string>, own: map<string, JsValue>, order: seq<string>, u: string)
    requires JsCounted(seen, own, order)
    ensures JsCounted(seen + [u], own[u := Num(multiset(seen)[u] + 1)], if u in own then order else order + [u])
  {
    DistinctSnoc(seen, u);
    KeysStep(seen, own, u, Num(multiset(seen)[u] + 1));
    JsValuesStep(seen, own, u);
  }

  /** As written, storing the next count of `u` keeps every stored count equal to the number of occurrences. */
  lemma JsValuesStep(seen: seq<string>, own: map<string, JsValue>, u: string)
    requires forall v :: v in own ==> own[v] == Num(multiset(seen)[v])
    ensures forall v :: v in own[u := Num(multiset(seen)[u] + 1)] ==>
              own[u := Num(multiset(seen)[u] + 1)][v] == Num(multiset(seen + [u])[v])
  {
    assert multiset(seen + [u]) == multiset(seen) + multiset{u};
  }

  /** For ordinary usernames the dictionary as written agrees with `Counted`. */
  lemma {:induction false} JsCountsOrdinary(users: seq<string>)
    requires forall i :: 0 <= i < |users| ==> !Inherited(users[i])
    ensures JsCounted(users, JsCounts(users).0, JsCounts(users).1)
  {
    if users != [] {
      var init := users[..|users| - 1];
      var u := users[|users| - 1];
      assert users == init + [u];
      assert forall i :: 0 <= i < |init| ==> init[i] == users[i];
      JsCountsOrdinary(init);
      var (own, order) := JsCounts(init);
      JsBump(init, own, order, u);
      JsCountedStep(init, own, order, u);
    }
  }

  /** For ordinary usernames the grouping as written is the intended one. */
  lemma JsTallyOrdinary(users: seq<string>)
    requires forall i :: 0 <= i < |users| ==> !Inherited(users[i])
    ensures |JsTally(users)| == |Tallied(users)|
    ensures forall i :: 0 <= i < |JsTally(users)| ==>
              JsTally(users)[i] == JsEntry(Tallied(users)[i].user, Num(Tallied(users)[i].count))
  {
    JsCountsOrdinary(users);
    var d := Distinct(users);
    forall i | 0 <= i < |d| ensures d[i] in JsCounts(users).0 {
      assert d[i] in d;
    }
  }
}
