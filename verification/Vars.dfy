/**
 The live variables of one step: layers that shadow one another within a scope, and a log of the
 writes that is handed on with all but the last write to each variable left out.
 */
module Variables {
  import opened Sorting
  import opened Text

  datatype Scope = Local | Data | Environment | Folder | Collection | Global

  /** The scope a script names, when it is one. */
  type ScopeName = Option<Scope>

  datatype Var = Var(value: string, secret: bool)

  datatype Change =
    | Wrote(scope: Scope, key: string, value: string, secret: bool)
    | Removed(scope: Scope, key: string)

  /** The contents of a layer. */
  datatype Held = Held(scope: Scope, vars: map<string, Var>)

  /** The variables of a scope: of layers of one scope, the earlier wins. */
  ghost function View(ls: seq<Held>, s: Scope): map<string, Var> {
    if ls == [] then map[]
    else if ls[0].scope == s then View(ls[1..], s) + ls[0].vars
    else View(ls[1..], s)
  }

  function Plain(m: map<string, Var>): map<string, string> {
    map k | k in m :: m[k].value
  }

  function Apply(m: map<string, Var>, c: Change, s: Scope): map<string, Var> {
    if c.scope != s then m
    else if c.Wrote? then m[c.key := Var(c.value, c.secret)]
    else m - {c.key}
  }

  /** What a scope becomes when the changes are made to it one after the other. */
  function Replay(m: map<string, Var>, changes: seq<Change>, s: Scope): map<string, Var> {
    if changes == [] then m
    else Apply(Replay(m, changes[..|changes| - 1], s), changes[|changes| - 1], s)
  }

  lemma {:induction false} ReplaySnoc(m: map<string, Var>, changes: seq<Change>, c: Change, s: Scope)
    ensures Replay(m, changes + [c], s) == Apply(Replay(m, changes, s), c, s)
  {
    assert (changes + [c])[..|changes|] == changes;
  }

  /** The layers hold what the log says. */
  ghost predicate Agrees(initial: seq<Held>, changes: seq<Change>, ls: seq<Held>) {
    forall s :: View(ls, s) == Replay(View(initial, s), changes, s)
  }

  /** The change has been made: to its variable in its scope, and to nothing else. */
  ghost predicate Made(ls: seq<Held>, c: Change, ls': seq<Held>) {
    forall t :: View(ls', t) == Apply(View(ls, t), c, t)
  }

  /** Making a change to the layers and logging it keep them in agreement. */
  lemma {:induction false} Logged(initial: seq<Held>, changes: seq<Change>, ls: seq<Held>, c: Change, ls': seq<Held>)
    requires Agrees(initial, changes, ls)
    requires Made(ls, c, ls')
    ensures Agrees(initial, changes + [c], ls')
  {
    forall s: Scope
      ensures View(ls', s) == Replay(View(initial, s), changes + [c], s)
    {
      ReplaySnoc(View(initial, s), changes, c, s);
    }
  }

  lemma {:induction false} NothingLogged(initial: seq<Held>, masked: set<string>)
    ensures Agrees(initial, [], initial) && Guarded(initial, [], masked)
  {}

  ghost predicate IsSecret(m: map<string, Var>, key: string) {
    key in m && m[key].secret
  }

  /** A variable that was a secret when it was written to was written as one, and every such value is masked. */
  ghost predicate Guarded(initial: seq<Held>, changes: seq<Change>, masked: set<string>) {
    forall i :: 0 <= i < |changes| && changes[i].Wrote? ==> GuardedAt(initial, changes, masked, i)
  }

  ghost predicate GuardedAt(initial: seq<Held>, changes: seq<Change>, masked: set<string>, i: nat)
    requires i < |changes| && changes[i].Wrote?
  {
    && (changes[i].secret ==> changes[i].value in masked)
    && var c := changes[i];
       IsSecret(Replay(View(initial, c.scope), changes[..i], c.scope), c.key) ==> c.secret
  }

  lemma {:induction false} GuardedSnoc(initial: seq<Held>, changes: seq<Change>, masked: set<string>, c: Change,
                                       masked': set<string>)
    requires Guarded(initial, changes, masked) && masked <= masked'
    requires c.Wrote? ==> c.secret ==> c.value in masked'
    requires c.Wrote? ==> IsSecret(Replay(View(initial, c.scope), changes, c.scope), c.key) ==> c.secret
    ensures Guarded(initial, changes + [c], masked')
  {
    var changes' := changes + [c];
    forall i | 0 <= i < |changes'| && changes'[i].Wrote?
      ensures GuardedAt(initial, changes', masked', i)
    {
      if i < |changes| {
        assert GuardedAt(initial, changes, masked, i);
        assert changes'[..i] == changes[..i];
      } else {
        assert changes'[..i] == changes;
      }
    }
  }

  /** One change that does not remove it leaves a secret a secret. */
  lemma {:induction false} SecretStays(m: map<string, Var>, c: Change, s: Scope, key: string)
    requires IsSecret(m, key) && c != Removed(s, key)
    requires c.Wrote? && c.scope == s && c.key == key ==> c.secret
    ensures IsSecret(Apply(m, c, s), key)
  {}

  lemma {:induction false} GuardedWrite(initial: seq<Held>, changes: seq<Change>, masked: set<string>, i: nat,
                                        s: Scope, key: string)
    requires Guarded(initial, changes, masked) && i < |changes|
    requires IsSecret(Replay(View(initial, s), changes[..i], s), key)
    ensures changes[i].Wrote? && changes[i].scope == s && changes[i].key == key ==> changes[i].secret
  {
    assert changes[i].Wrote? ==> GuardedAt(initial, changes, masked, i);
  }

  /** A secret stays one through every overwrite, until it is removed. */
  lemma {:induction false} SecretsStay(initial: seq<Held>, changes: seq<Change>, masked: set<string>, s: Scope,
                                       key: string, i: nat, j: nat)
    requires Guarded(initial, changes, masked) && i <= j <= |changes|
    requires forall n :: i <= n < j ==> changes[n] != Removed(s, key)
    requires IsSecret(Replay(View(initial, s), changes[..i], s), key)
    ensures IsSecret(Replay(View(initial, s), changes[..j], s), key)
    decreases j
  {
    if i < j {
      SecretsStay(initial, changes, masked, s, key, i, j - 1);
      GuardedWrite(initial, changes, masked, j - 1, s, key);
      var m := View(initial, s);
      SecretStays(Replay(m, changes[..j - 1], s), changes[j - 1], s, key);
      ReplaySnoc(m, changes[..j - 1], changes[j - 1], s);
      assert changes[..j] == changes[..j - 1] + [changes[j - 1]];
    }
  }

  // ---------------------------------------------------------------- views of layers

  /** No layer before the i-th hides its value of the key. */
  ghost predicate FirstFor(ls: seq<Held>, s: Scope, key: string, i: nat) {
    && i < |ls| && ls[i].scope == s
    && forall j :: 0 <= j < i && ls[j].scope == s ==> key !in ls[j].vars
  }

  lemma {:induction false} WriteAt(ls: seq<Held>, s: Scope, key: string, v: Var, i: nat, t: Scope)
    requires FirstFor(ls, s, key, i)
    ensures View(ls[i := Held(s, ls[i].vars[key := v])], t) == if t == s then View(ls, s)[key := v] else View(ls, t)
    decreases |ls|
  {
    var ls' := ls[i := Held(s, ls[i].vars[key := v])];
    if i == 0 {
      assert ls'[1..] == ls[1..];
    } else {
      assert ls'[1..] == ls[1..][i - 1 := Held(s, ls[1..][i - 1].vars[key := v])];
      assert forall j :: 0 <= j < i - 1 ==> ls[1..][j] == ls[j + 1];
      WriteAt(ls[1..], s, key, v, i - 1, t);
      assert ls[0].scope == s ==> key !in ls[0].vars;
    }
  }

  lemma {:induction false} EmptyLayer(ls: seq<Held>, s: Scope, t: Scope)
    ensures View(ls + [Held(s, map[])], t) == View(ls, t)
    decreases |ls|
  {
    if ls != [] {
      assert (ls + [Held(s, map[])])[1..] == ls[1..] + [Held(s, map[])];
      EmptyLayer(ls[1..], s, t);
    }
  }

  /** The same layers without the key in those of the scope. */
  ghost predicate WithoutKey(ls: seq<Held>, ls': seq<Held>, s: Scope, key: string) {
    && |ls'| == |ls|
    && forall i :: 0 <= i < |ls| ==> ls'[i] == if ls[i].scope == s then Held(s, ls[i].vars - {key}) else ls[i]
  }

  lemma {:induction false} RemoveEverywhere(ls: seq<Held>, ls': seq<Held>, s: Scope, key: string, t: Scope)
    requires WithoutKey(ls, ls', s, key)
    ensures View(ls', t) == if t == s then View(ls, s) - {key} else View(ls, t)
    decreases |ls|
  {
    if ls != [] {
      assert WithoutKey(ls[1..], ls'[1..], s, key);
      RemoveEverywhere(ls[1..], ls'[1..], s, key, t);
    }
  }

  lemma {:induction false} ViewAtFirst(ls: seq<Held>, s: Scope, key: string, i: nat)
    requires FirstFor(ls, s, key, i)
    ensures key in ls[i].vars ==> key in View(ls, s) && View(ls, s)[key] == ls[i].vars[key]
    decreases |ls|
  {
    if i > 0 {
      assert forall j :: 0 <= j < i - 1 ==> ls[1..][j] == ls[j + 1];
      ViewAtFirst(ls[1..], s, key, i - 1);
      assert ls[0].scope == s ==> key !in ls[0].vars;
    }
  }

  lemma {:induction false} HeldNowhere(ls: seq<Held>, s: Scope, key: string)
    requires forall j :: 0 <= j < |ls| && ls[j].scope == s ==> key !in ls[j].vars
    ensures key !in View(ls, s)
    decreases |ls|
  {
    if ls != [] {
      assert forall j :: 0 <= j < |ls| - 1 ==> ls[1..][j] == ls[j + 1];
      HeldNowhere(ls[1..], s, key);
      assert ls[0].scope == s ==> key !in ls[0].vars;
    }
  }

  // ---------------------------------------------------------------- the log

  /** The two changes are to the same variable. */
  predicate SameVar(c: Change, d: Change) {
    c.scope == d.scope && c.key == d.key
  }

  /** The i-th change is the last to its variable. */
  predicate IsLast(changes: seq<Change>, i: nat) {
    i < |changes| && forall j :: i < j < |changes| ==> !SameVar(changes[j], changes[i])
  }

  function LastIndices(changes: seq<Change>): set<nat> {
    set i | 0 <= i < |changes| && IsLast(changes, i)
  }

  predicate Earlier(i: nat, j: nat) {
    i < j
  }

  /** The log with only the last write to each variable, in the order of those writes. */
  ghost predicate Compacts(changes: seq<Change>, out: seq<Change>) {
    exists idx: seq<nat> :: IsListing(Earlier, LastIndices(changes), idx) && |out| == |idx|
                            && forall p :: 0 <= p < |idx| ==> idx[p] < |changes| && out[p] == changes[idx[p]]
  }

  /** A variable is as the last change to it left it. */
  lemma {:induction false} ReplayIsLastWrite(m: map<string, Var>, changes: seq<Change>, s: Scope, i: nat)
    requires IsLast(changes, i) && changes[i].scope == s
    ensures var c := changes[i];
            if c.Wrote? then c.key in Replay(m, changes, s) && Replay(m, changes, s)[c.key] == Var(c.value, c.secret)
            else c.key !in Replay(m, changes, s)
    decreases |changes|
  {
    var n := |changes| - 1;
    if i < n {
      assert IsLast(changes[..n], i);
      ReplayIsLastWrite(m, changes[..n], s, i);
      assert !SameVar(changes[n], changes[i]);
    }
  }

  lemma {:induction false} ReplayUntouched(m: map<string, Var>, changes: seq<Change>, s: Scope, k: string)
    requires forall i :: 0 <= i < |changes| && changes[i].scope == s ==> changes[i].key != k
    ensures k in Replay(m, changes, s) <==> k in m
    ensures k in m ==> Replay(m, changes, s)[k] == m[k]
    decreases |changes|
  {
    if changes != [] {
      var n := |changes| - 1;
      assert forall i :: 0 <= i < n ==> changes[..n][i] == changes[i];
      ReplayUntouched(m, changes[..n], s, k);
      assert changes[n].scope == s ==> changes[n].key != k;
    }
  }

  /** Every change has a last one to its variable. */
  lemma {:induction false} LastExists(changes: seq<Change>, i: nat) returns (j: nat)
    requires i < |changes|
    ensures IsLast(changes, j) && SameVar(changes[j], changes[i])
    decreases |changes| - i
  {
    if IsLast(changes, i) {
      j := i;
    } else {
      var k :| i < k < |changes| && SameVar(changes[k], changes[i]);
      j := LastExists(changes, k);
    }
  }

  /** Each variable has at most one change in the compacted log, and it is the last one in the log. */
  lemma {:induction false} PickedIsLast(changes: seq<Change>, out: seq<Change>, idx: seq<nat>, p: nat)
    requires IsListing(Earlier, LastIndices(changes), idx) && |out| == |idx| && p < |out|
    requires forall p :: 0 <= p < |idx| ==> idx[p] < |changes| && out[p] == changes[idx[p]]
    ensures IsLast(out, p)
  {
    assert forall q :: 0 <= q < |idx| ==> idx[q] in Elems(idx);
    forall q | p < q < |out|
      ensures !SameVar(out[q], out[p])
    {
      assert Earlier(idx[p], idx[q]) && IsLast(changes, idx[p]);
    }
  }

  lemma {:induction false} CompactedAt(m: map<string, Var>, changes: seq<Change>, out: seq<Change>, s: Scope, k: string)
    requires Compacts(changes, out)
    ensures k in Replay(m, out, s) <==> k in Replay(m, changes, s)
    ensures k in Replay(m, out, s) ==> Replay(m, out, s)[k] == Replay(m, changes, s)[k]
  {
    var idx: seq<nat> :| IsListing(Earlier, LastIndices(changes), idx) && |out| == |idx|
                         && forall p :: 0 <= p < |idx| ==> idx[p] < |changes| && out[p] == changes[idx[p]];
    if i :| 0 <= i < |changes| && changes[i].scope == s && changes[i].key == k {
      var j := LastExists(changes, i);
      assert j in Elems(idx);
      var p :| 0 <= p < |idx| && idx[p] == j;
      PickedIsLast(changes, out, idx, p);
      ReplayIsLastWrite(m, changes, s, j);
      ReplayIsLastWrite(m, out, s, p);
    } else {
      ReplayUntouched(m, changes, s, k);
      ReplayUntouched(m, out, s, k);
    }
  }

  /** The compacted log has the effect of the whole log on every scope. */
  lemma {:induction false} CompactionKeepsEffect(m: map<string, Var>, changes: seq<Change>, out: seq<Change>, s: Scope)
    requires Compacts(changes, out)
    ensures Replay(m, out, s) == Replay(m, changes, s)
  {
    forall k: string
      ensures k in Replay(m, out, s) <==> k in Replay(m, changes, s)
      ensures k in Replay(m, out, s) ==> Replay(m, out, s)[k] == Replay(m, changes, s)[k]
    {
      CompactedAt(m, changes, out, s, k);
    }
  }

  // ---------------------------------------------------------------- the state

  class Layer {
    const scope: Scope
    var vars: map<string, Var>

    constructor (scope: Scope, vars: map<string, Var>)
      ensures this.scope == scope && this.vars == vars
    {
      this.scope, this.vars := scope, vars;
    }
  }

  /** The contents of layers. */
  ghost function Contents(layers: seq<Layer>): (r: seq<Held>)
    reads layers
    ensures |r| == |layers| && forall i :: 0 <= i < |layers| ==> r[i] == Held(layers[i].scope, layers[i].vars)
    decreases |layers|
  {
    if layers == [] then []
    else Contents(layers[..|layers| - 1]) + [Held(layers[|layers| - 1].scope, layers[|layers| - 1].vars)]
  }

  function LocalLayer(local: map<string, string>): Held {
    Held(Local, map k | k in local :: Var(local[k], false))
  }

  /** The layers given, and one for the local values when there are any. */
  ghost function Initial(base: seq<Layer>, local: map<string, string>): seq<Held>
    reads base
  {
    Contents(base) + if local == map[] then [] else [LocalLayer(local)]
  }

  class Vars {
    const secretName: Option<string -> bool>
    var layers: seq<Layer>
    var changes: seq<Change>
    /** The values hidden from whatever is shown. */
    var masked: set<string>
    /** What the layers held to begin with. */
    ghost const initial: seq<Held>

    /** Layers of its own, which hold what replaying the log on the initial ones gives. */
    ghost predicate Valid()
      reads this, layers
    {
      && NoDuplicates(layers)
      && Agrees(initial, changes, Contents(layers))
      && Guarded(initial, changes, masked)
    }

    /** The variables a scope has now. */
    ghost function Live(s: Scope): map<string, Var>
      reads this, layers
    {
      View(Contents(layers), s)
    }

    /** Copies the caller's layers, so that nothing written later shows in them. */
    constructor (base: seq<Layer>, local: map<string, string>, secretName: Option<string -> bool>, masked: set<string>)
      ensures Valid() && changes == [] && this.masked == masked && this.secretName == secretName
      ensures initial == Initial(base, local) && Contents(layers) == initial
      ensures forall l :: l in layers ==> fresh(l)
    {
      this.secretName, this.masked, changes := secretName, masked, [];
      initial := Initial(base, local);
      var ls := Built(base, local);
      layers := ls;
      new;
      NothingLogged(initial, masked);
    }

    static method Copies(base: seq<Layer>) returns (ls: seq<Layer>)
      ensures NoDuplicates(ls) && forall l :: l in ls ==> fresh(l)
      ensures Contents(ls) == Contents(base)
    {
      ls := [];
      for i := 0 to |base|
        invariant |ls| == i && NoDuplicates(ls)
        invariant forall k :: 0 <= k < i ==> fresh(ls[k]) && ls[k].scope == base[k].scope && ls[k].vars == base[k].vars
      {
        var l := new Layer(base[i].scope, base[i].vars);
        ls := ls + [l];
      }
    }

    /** Copies of the layers given, and one for the local values when there are any. */
    static method Built(base: seq<Layer>, local: map<string, string>) returns (ls: seq<Layer>)
      ensures NoDuplicates(ls) && forall l :: l in ls ==> fresh(l)
      ensures Contents(ls) == Initial(base, local)
    {
      ls := Copies(base);
      if local != map[] {
        var l := new Layer(Local, map k | k in local :: Var(local[k], false));
        assert (ls + [l])[..|ls|] == ls;
        ls := ls + [l];
      }
    }

    /** Whether a value now written to the variable is a secret. */
    ghost predicate Secrecy(s: Scope, key: string)
      reads this, layers
    {
      if key in Live(s) then Live(s)[key].secret else secretName.Some? && secretName.value(key)
    }

    method GetIn(name: ScopeName, key: string) returns (r: Option<string>)
      requires Valid()
      ensures r == if name.Some? && key in Live(name.value) then Some(Live(name.value)[key].value) else None
    {
      if name.None? {
        return None;
      }
      for i := 0 to |layers|
        invariant forall j :: 0 <= j < i && layers[j].scope == name.value ==> key !in layers[j].vars
      {
        if layers[i].scope == name.value && key in layers[i].vars {
          ViewAtFirst(Contents(layers), name.value, key, i);
          return Some(layers[i].vars[key].value);
        }
      }
      HeldNowhere(Contents(layers), name.value, key);
      return None;
    }

    method ToObject(name: ScopeName) returns (out: map<string, string>)
      requires Valid()
      ensures out == if name.Some? then Plain(Live(name.value)) else map[]
    {
      out := map[];
      if name.None? {
        return;
      }
      ghost var ls := Contents(layers);
      var i := |layers|;
      assert ls[i..] == [];
      while i > 0
        invariant i <= |layers| && out == Plain(View(ls[i..], name.value))
      {
        i := i - 1;
        assert ls[i..][1..] == ls[i + 1..];
        if layers[i].scope == name.value {
          out := out + map k | k in layers[i].vars :: layers[i].vars[k].value;
        }
      }
      assert ls[0..] == ls;
    }

    /**
     Writes a variable. Scopes that are unknown or hold iteration data are refused. A variable that
     was a secret stays one, and its value is masked from now on.
     */
    method Set(name: ScopeName, key: string, value: string) returns (ok: bool)
      requires Valid()
      modifies this, layers
      ensures Valid() && forall l :: l in layers && l !in old(layers) ==> fresh(l)
      ensures ok <==> name.Some? && name.value != Data
      ensures !ok ==> changes == old(changes) && masked == old(masked) && Contents(layers) == old(Contents(layers))
      ensures ok ==> var c := Wrote(name.value, key, value, old(Secrecy(name.value, key)));
                     && changes == old(changes) + [c] && Made(old(Contents(layers)), c, Contents(layers))
                     && masked == old(masked) + if c.secret then {value} else {}
    {
      if name.None? || name.value == Data {
        return false;
      }
      var s := name.value;
      var target, secret, existed := Target(s, key);
      if !existed && secretName.Some? && secretName.value(key) {
        secret := true;
      }
      ghost var ls := Contents(layers);
      ghost var c := Wrote(s, key, value, secret);
      Put(s, key, value, secret, target);
      if secret {
        masked := masked + {value};
      }
      changes := changes + [Wrote(s, key, value, secret)];
      Logged(initial, old(changes), ls, c, Contents(layers));
      GuardedSnoc(initial, old(changes), old(masked), c, masked);
      return true;
    }

    /** Writes to the layer, which is added when there is none for the scope. */
    method Put(s: Scope, key: string, value: string, secret: bool, target: nat)
      requires NoDuplicates(layers) && target <= |layers|
      requires target < |layers| ==> FirstFor(Contents(layers), s, key, target)
      requires target == |layers| ==> forall j :: 0 <= j < |layers| ==> layers[j].scope != s
      modifies this`layers, layers
      ensures NoDuplicates(layers) && forall l :: l in layers && l !in old(layers) ==> fresh(l)
      ensures Made(old(Contents(layers)), Wrote(s, key, value, secret), Contents(layers))
    {
      ghost var ls := Contents(layers);
      if target == |layers| {
        AddLayer(s);
      }
      ghost var ls' := Contents(layers);
      assert forall t :: View(ls', t) == View(ls, t);
      WriteVar(s, key, Var(value, secret), target);
    }

    method AddLayer(s: Scope)
      requires NoDuplicates(layers)
      modifies this`layers
      ensures |layers| == |old(layers)| + 1 && layers[..|old(layers)|] == old(layers) && fresh(layers[|old(layers)|])
      ensures NoDuplicates(layers) && Contents(layers) == old(Contents(layers)) + [Held(s, map[])]
      ensures forall t :: View(Contents(layers), t) == View(old(Contents(layers)), t)
    {
      var l := new Layer(s, map[]);
      layers := layers + [l];
      assert layers[..|old(layers)|] == old(layers);
      Appended(old(Contents(layers)), s);
    }

    method WriteVar(s: Scope, key: string, v: Var, i: nat)
      requires NoDuplicates(layers) && FirstFor(Contents(layers), s, key, i)
      modifies layers
      ensures Made(old(Contents(layers)), Wrote(s, key, v.value, v.secret), Contents(layers))
    {
      ghost var ls := Contents(layers);
      layers[i].vars := layers[i].vars[key := v];
      assert Contents(layers) == ls[i := Held(s, ls[i].vars[key := v])];
      Written(ls, s, key, v, i);
    }

    /** The layer to write to: the one whose value shows, else the first of the scope, else a new one. */
    method Target(s: Scope, key: string) returns (target: nat, secret: bool, existed: bool)
      ensures target <= |layers|
      ensures target < |layers| ==> FirstFor(Contents(layers), s, key, target)
      ensures target == |layers| ==> forall j :: 0 <= j < |layers| ==> layers[j].scope != s
      ensures existed <==> key in Live(s)
      ensures secret == (existed && Live(s)[key].secret)
    {
      target := |layers|;
      for i := 0 to |layers|
        invariant target == |layers| || (target < i && layers[target].scope == s)
        invariant forall j :: 0 <= j < target && j < i ==> layers[j].scope != s
        invariant forall j :: 0 <= j < i && layers[j].scope == s ==> key !in layers[j].vars
      {
        if layers[i].scope == s {
          if target == |layers| {
            target := i;
          }
          if key in layers[i].vars {
            ViewAtFirst(Contents(layers), s, key, i);
            return i, layers[i].vars[key].secret, true;
          }
        }
      }
      HeldNowhere(Contents(layers), s, key);
      return target, false, false;
    }

    lemma {:induction false} Appended(ls: seq<Held>, s: Scope)
      ensures forall t :: View(ls + [Held(s, map[])], t) == View(ls, t)
    {
      forall t: Scope ensures View(ls + [Held(s, map[])], t) == View(ls, t) { EmptyLayer(ls, s, t); }
    }

    lemma {:induction false} Written(ls: seq<Held>, s: Scope, key: string, v: Var, i: nat)
      requires FirstFor(ls, s, key, i)
      ensures forall t ::
                View(ls[i := Held(s, ls[i].vars[key := v])], t) == if t == s then View(ls, s)[key := v] else View(ls, t)
    {
      forall t: Scope
        ensures View(ls[i := Held(s, ls[i].vars[key := v])], t) == if t == s then View(ls, s)[key := v] else View(ls, t)
      {
        WriteAt(ls, s, key, v, i, t);
      }
    }

    /** Removes a variable from every layer of its scope. */
    method Unset(name: ScopeName, key: string) returns (ok: bool)
      requires Valid()
      modifies this`changes, layers
      ensures Valid() && layers == old(layers)
      ensures ok <==> name.Some? && name.value != Data
      ensures changes == old(changes) + if ok then [Removed(name.value, key)] else []
      ensures if ok then Made(old(Contents(layers)), Removed(name.value, key), Contents(layers))
              else Contents(layers) == old(Contents(layers))
    {
      if name.None? || name.value == Data {
        return false;
      }
      var s := name.value;
      for i := 0 to |layers|
        invariant changes == old(changes)
        invariant forall j :: 0 <= j < |layers| ==>
          layers[j].vars == if j < i && layers[j].scope == s then old(layers[j].vars) - {key} else old(layers[j].vars)
      {
        if layers[i].scope == s {
          layers[i].vars := layers[i].vars - {key};
        }
      }
      assert WithoutKey(old(Contents(layers)), Contents(layers), s, key);
      forall t: Scope
        ensures View(Contents(layers), t) == Apply(View(old(Contents(layers)), t), Removed(s, key), t)
      {
        RemoveEverywhere(old(Contents(layers)), Contents(layers), s, key, t);
      }
      changes := changes + [Removed(s, key)];
      Logged(initial, old(changes), old(Contents(layers)), Removed(s, key), Contents(layers));
      GuardedSnoc(initial, old(changes), masked, Removed(s, key), masked);
      return true;
    }

    /**
     Removes every variable of a scope, in any order. It fails only for iteration data that is not
     empty, and an unknown scope has nothing to remove.
     */
    method Clear(name: ScopeName) returns (ok: bool)
      requires Valid()
      modifies this`changes, layers
      ensures Valid() && layers == old(layers)
      ensures ok <==> name != Some(Data) || old(Live(Data)) == map[]
      ensures forall s :: Live(s) == if ok && name == Some(s) then map[] else old(Live(s))
      ensures !ok || name.None? ==> changes == old(changes)
    {
      var vars := ToObject(name);
      var keys := vars.Keys;
      while keys != {}
        invariant Valid() && layers == old(layers)
        invariant name.None? ==> keys == {}
        invariant name.Some? ==> keys == Live(name.value).Keys
        invariant forall s :: name != Some(s) ==> Live(s) == old(Live(s))
        invariant name == Some(Data) || name.None? ==> changes == old(changes)
        invariant name == Some(Data) ==> Live(Data) == old(Live(Data))
        decreases keys
      {
        var k :| k in keys;
        ok := Unset(name, k);
        if !ok {
          return;
        }
        keys := keys - {k};
      }
      return true;
    }

    /** The writes to hand on: replaying them on the initial variables gives the live ones. */
    method Changes() returns (out: seq<Change>)
      requires Valid()
      ensures Compacts(changes, out)
      ensures forall s :: Replay(View(initial, s), out, s) == Live(s)
    {
      var last := LastWrites();
      var idx := Ordered(last);
      out := [];
      for p := 0 to |idx|
        invariant |out| == p
        invariant forall q :: 0 <= q < p ==> idx[q] < |changes| && out[q] == changes[idx[q]]
      {
        assert idx[p] in Elems(idx) && idx[p] in LastIndices(changes);
        out := out + [changes[idx[p]]];
      }
      forall s: Scope
        ensures Replay(View(initial, s), out, s) == Live(s)
      {
        CompactionKeepsEffect(View(initial, s), changes, out, s);
      }
    }

    method LastWrites() returns (last: set<nat>)
      ensures last == LastIndices(changes)
    {
      var at: map<(Scope, string), nat> := map[];
      for i := 0 to |changes|
        invariant forall v :: v in at ==> at[v] < i && v == (changes[at[v]].scope, changes[at[v]].key)
        invariant forall j :: 0 <= j < i ==>
                    (changes[j].scope, changes[j].key) in at && j <= at[(changes[j].scope, changes[j].key)]
      {
        at := at[(changes[i].scope, changes[i].key) := i];
      }
      LastOnes(at);
      return at.Values;
    }

    lemma {:induction false} LastOnes(last: map<(Scope, string), nat>)
      requires forall v :: v in last ==> last[v] < |changes| && v == (changes[last[v]].scope, changes[last[v]].key)
      requires forall j :: 0 <= j < |changes| ==>
                 (changes[j].scope, changes[j].key) in last && j <= last[(changes[j].scope, changes[j].key)]
      ensures last.Values == LastIndices(changes)
    {
      forall i | i in LastIndices(changes)
        ensures i in last.Values
      {
        var v := (changes[i].scope, changes[i].key);
        assert SameVar(changes[last[v]], changes[i]);
      }
      forall v | v in last
        ensures IsLast(changes, last[v])
      {
        forall j | last[v] < j < |changes|
          ensures !SameVar(changes[j], changes[last[v]])
        {
          assert (changes[j].scope, changes[j].key) in last;
        }
      }
    }

    /** The numbers taken out of a map in any order, then sorted. */
    method Ordered(s: set<nat>) returns (idx: seq<nat>)
      ensures IsListing(Earlier, s, idx)
    {
      var q, rest := [], s;
      while rest != {}
        invariant NoDuplicates(q) && Elems(q) + rest == s && Elems(q) !! rest
        decreases rest
      {
        var i :| i in rest;
        assert Elems(q + [i]) == Elems(q) + {i};
        q, rest := q + [i], rest - {i};
      }
      idx := SortSlice(Earlier, q);
    }
  }
}
