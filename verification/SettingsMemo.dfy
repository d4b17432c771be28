/**
 The settings store with its revision counter, and the memo that recomputes once per revision. `history` records what
 the runtime layer was at every revision.
 */
module SettingsMemo {
  import opened Text

  type Key = string

  datatype Value = TextValue(text: string) | NumberValue(number: int) | FlagValue(flag: bool) | ListValue(items: seq<string>)

  /** A setting: its default, and what a value becomes when it is serialized and parsed; `None` when it is refused. */
  datatype Definition = Definition(default: Value, accept: Value -> Option<Value>)

  type Definitions = map<Key, Definition>
  type Runtime = map<Key, Value>

  class SettingsStore {
    const definitions: Definitions
    var runtime: Runtime
    var revision: nat
    ghost var history: map<nat, Runtime>

    ghost predicate Valid()
      reads this
    {
      && revision in history && history[revision] == runtime
      && (forall r :: r in history ==> r <= revision)
      && (forall key :: key in runtime ==> key in definitions)
    }

    constructor (definitions: Definitions)
      ensures Valid() && this.definitions == definitions && runtime == map[] && revision == 0
    {
      this.definitions := definitions;
      runtime, revision, history := map[], 0, map[0 := map[]];
    }

    /** Every change of the runtime layer ends in a revision of its own. */
    method Commit(next: Runtime)
      requires Valid() && forall key :: key in next ==> key in definitions
      modifies this
      ensures Valid() && runtime == next && revision == old(revision) + 1
      ensures history == old(history)[revision := next]
    {
      runtime := next;
      revision := revision + 1;
      history := history[revision := next];
    }

    /** `getWithMeta`: the override, or the default; an unknown key is an error. */
    method GetWithMeta(key: Key) returns (value: Option<Value>, isCustom: bool)
      requires Valid()
      ensures value.Some? <==> key in definitions
      ensures key in definitions && key in runtime ==> value == Some(runtime[key]) && isCustom
      ensures key in definitions && key !in runtime ==> value == Some(definitions[key].default) && !isCustom
    {
      if key !in definitions { return None, false; }
      if runtime != map[] && key in runtime { return Some(runtime[key]), true; }
      return Some(definitions[key].default), false;
    }

    /** `setRuntimeValue`: a refused value changes nothing, not even the revision. */
    method SetRuntimeValue(key: Key, value: Value) returns (ok: bool)
      requires Valid()
      modifies this
      ensures Valid() && Extends(old(history), history)
      ensures ok <==> key in definitions && definitions[key].accept(value).Some?
      ensures ok ==> runtime == old(runtime)[key := definitions[key].accept(value).value] && revision == old(revision) + 1
      ensures !ok ==> runtime == old(runtime) && revision == old(revision)
    {
      if key !in definitions { return false; }
      var accepted := definitions[key].accept(value);
      if accepted.None? { return false; }
      Commit(runtime[key := accepted.value]);
      return true;
    }

    method SetParsedRuntimeValue(key: Key, value: Value)
      requires Valid() && key in definitions
      modifies this
      ensures Valid() && Extends(old(history), history)
      ensures runtime == old(runtime)[key := value] && revision == old(revision) + 1
    {
      Commit(runtime[key := value]);
    }

    /** `setRuntimeValues`: known keys in order, up to the first refused value; undefined values are skipped. */
    method SetRuntimeValues(values: seq<(Key, Option<Value>)>) returns (ok: bool)
      requires Valid()
      modifies this
      ensures Valid() && Extends(old(history), history)
      ensures runtime != old(runtime) ==> revision > old(revision)
      ensures (runtime, ok) == AllSet(definitions, old(runtime), values)
    {
      ok := true;
      var i := 0;
      while i < |values| && ok
        invariant i <= |values| && Valid() && Extends(old(history), history)
        invariant revision >= old(revision) && (runtime != old(runtime) ==> revision > old(revision))
        invariant (runtime, ok) == AllSet(definitions, old(runtime), values[..i])
      {
        assert values[..i + 1][..i] == values[..i];
        var (key, value) := values[i];
        i := i + 1;
        if key in definitions && value.Some? {
          ok := SetRuntimeValue(key, value.value);
        }
      }
      RefusedStaysRefused(definitions, old(runtime), values, i);
    }

    method DeleteRuntimeValues(keys: seq<Key>)
      requires Valid()
      modifies this
      ensures Valid() && Extends(old(history), history)
      ensures runtime == old(runtime) - (set key | key in keys)
      ensures revision == if keys == [] then old(revision) else old(revision) + 1
    {
      if keys == [] {
        assert runtime - (set key | key in keys) == runtime;
        return;
      }
      var next := runtime;
      for i := 0 to |keys|
        invariant next == runtime - (set key | key in keys[..i])
      {
        assert keys[..i + 1] == keys[..i] + [keys[i]];
        next := next - {keys[i]};
      }
      assert keys[..|keys|] == keys;
      Commit(next);
    }

    method ClearRuntimeValues()
      requires Valid()
      modifies this
      ensures Valid() && Extends(old(history), history) && runtime == map[] && revision == old(revision) + 1
    {
      Commit(map[]);
    }
  }

  /** The runtime layer after a list of writes, and whether none was refused. */
  function AllSet(definitions: Definitions, runtime: Runtime, values: seq<(Key, Option<Value>)>): (Runtime, bool) {
    if values == [] then (runtime, true)
    else
      var before := AllSet(definitions, runtime, values[..|values| - 1]);
      var (key, value) := values[|values| - 1];
      if !before.1 || key !in definitions || value.None? then before
      else
        var accepted := definitions[key].accept(value.value);
        if accepted.None? then (before.0, false) else (before.0[key := accepted.value], true)
  }

  lemma {:induction false} RefusedStaysRefused(definitions: Definitions, runtime: Runtime, values: seq<(Key, Option<Value>)>, i: nat)
    requires i <= |values| && (i < |values| ==> !AllSet(definitions, runtime, values[..i]).1)
    ensures AllSet(definitions, runtime, values) == AllSet(definitions, runtime, values[..i])
    decreases |values|
  {
    if i < |values| {
      var rest := values[..|values| - 1];
      assert rest[..i] == values[..i];
      if i == |rest| { assert rest == values[..i]; }
      RefusedStaysRefused(definitions, runtime, rest, i);
    } else {
      assert values[..i] == values;
    }
  }

  predicate Refused(definitions: Definitions, entry: (Key, Option<Value>)) {
    entry.0 in definitions && entry.1.Some? && definitions[entry.0].accept(entry.1.value).None?
  }

  /** The entry writes `key`. */
  predicate WritesTo(definitions: Definitions, entry: (Key, Option<Value>), key: Key) {
    entry.0 == key && key in definitions && entry.1.Some? && definitions[key].accept(entry.1.value).Some?
  }

  /**
   A list of writes takes effect up to its first refused entry, entry `n`, and succeeds exactly when there is none. The last
   entry before that which writes `key`, entry `at`, decides its override; a key none of them writes keeps its own.
   */
  lemma {:induction false} AllSetIs(definitions: Definitions, runtime: Runtime, values: seq<(Key, Option<Value>)>, key: Key)
    returns (n: nat, at: Option<nat>)
    ensures n <= |values| && forall i :: 0 <= i < n ==> !Refused(definitions, values[i])
    ensures n < |values| ==> Refused(definitions, values[n])
    ensures AllSet(definitions, runtime, values).1 <==> n == |values|
    ensures forall i :: 0 <= i < n && WritesTo(definitions, values[i], key) ==> at.Some? && i <= at.value
    ensures var after := AllSet(definitions, runtime, values).0;
      if at.Some? then
        && at.value < n && WritesTo(definitions, values[at.value], key)
        && key in after && Some(after[key]) == definitions[key].accept(values[at.value].1.value)
      else (key in after <==> key in runtime) && (key in after ==> after[key] == runtime[key])
  {
    n, at := 0, None;
    if values != [] {
      var last: nat := |values| - 1;
      n, at := AllSetIs(definitions, runtime, values[..last], key);
      assert forall i :: 0 <= i < last ==> values[..last][i] == values[i];
      if n == last && !Refused(definitions, values[last]) {
        n := n + 1;
        if WritesTo(definitions, values[last], key) { at := Some(last); }
      }
    }
  }

  /** Nothing recorded is lost or rewritten. */
  ghost predicate Extends(before: map<nat, Runtime>, after: map<nat, Runtime>) {
    forall r :: r in before ==> r in after && after[r] == before[r]
  }

  /** `revisionMemo`: the closure variable, and what it may hold. */
  class RevisionMemo<T(==)> {
    const store: SettingsStore
    const compute: Runtime -> T
    var cached: Option<(nat, T)>

    /** What is cached was computed from the runtime layer of its revision. */
    ghost predicate Valid()
      reads this, store
    {
      store.Valid() && (cached.Some? ==>
        cached.value.0 in store.history && cached.value.1 == compute(store.history[cached.value.0]))
    }

    constructor (store: SettingsStore, compute: Runtime -> T)
      requires store.Valid()
      ensures Valid() && this.store == store && this.compute == compute
    {
      this.store, this.compute, cached := store, compute, None;
    }

    /** Always what recomputing from the current store would give. */
    method Read() returns (value: T)
      requires Valid()
      modifies this
      ensures Valid() && value == compute(store.runtime)
    {
      if cached.None? || cached.value.0 != store.revision {
        cached := Some((store.revision, compute(store.runtime)));
      }
      return cached.value.1;
    }
  }

  // ----- any interleaving

  datatype Step =
    | Set(key: Key, value: Value)
    | SetParsed(key: Key, value: Value)
    | SetMany(values: seq<(Key, Option<Value>)>)
    | Delete(keys: seq<Key>)
    | Clear
    | Read

  /** What one step makes of the runtime layer; a refused value and a read leave it as it is. */
  function LayerAfterStep(definitions: Definitions, runtime: Runtime, step: Step): Runtime {
    match step
    case Set(key, value) =>
      if key in definitions && definitions[key].accept(value).Some? then runtime[key := definitions[key].accept(value).value]
      else runtime
    case SetParsed(key, value) => runtime[key := value]
    case SetMany(values) => AllSet(definitions, runtime, values).0
    case Delete(keys) => runtime - (set key | key in keys)
    case Clear => map[]
    case Read => runtime
  }

  function LayerAfter(definitions: Definitions, runtime: Runtime, steps: seq<Step>): Runtime {
    if steps == [] then runtime
    else LayerAfterStep(definitions, LayerAfter(definitions, runtime, steps[..|steps| - 1]), steps[|steps| - 1])
  }

  /** The layer in force at each read, in order. */
  function LayersRead(definitions: Definitions, runtime: Runtime, steps: seq<Step>): seq<Runtime> {
    if steps == [] then []
    else
      var rest := steps[..|steps| - 1];
      LayersRead(definitions, runtime, rest)
        + if steps[|steps| - 1] == Read then [LayerAfter(definitions, runtime, rest)] else []
  }

  /**
   Writes and reads in any order: the writes all take effect, and every read returns what a computation on the layer in
   force at that read gives.
   */
  method Interleave<T(==)>(store: SettingsStore, memo: RevisionMemo<T>, steps: seq<Step>)
    returns (results: seq<T>, ghost moments: seq<Runtime>)
    requires memo.store == store && memo.Valid()
    requires forall step :: step in steps && step.SetParsed? ==> step.key in store.definitions
    modifies store, memo
    ensures memo.Valid()
    ensures store.runtime == LayerAfter(store.definitions, old(store.runtime), steps)
    ensures moments == LayersRead(store.definitions, old(store.runtime), steps)
    ensures |results| == |moments| && forall i :: 0 <= i < |results| ==> results[i] == memo.compute(moments[i])
    ensures forall i :: 0 <= i < |moments| ==> exists r :: r in store.history && store.history[r] == moments[i]
  {
    results, moments := [], [];
    for i := 0 to |steps|
      invariant memo.Valid()
      invariant store.runtime == LayerAfter(store.definitions, old(store.runtime), steps[..i])
      invariant moments == LayersRead(store.definitions, old(store.runtime), steps[..i])
      invariant |results| == |moments| && forall k :: 0 <= k < |results| ==> results[k] == memo.compute(moments[k])
      invariant forall k :: 0 <= k < |moments| ==> exists r :: r in store.history && store.history[r] == moments[k]
    {
      assert steps[i] in steps && steps[..i + 1][..i] == steps[..i];
      ghost var before := store.history;
      var value := Perform(store, memo, steps[i]);
      assert Extends(before, store.history);
      if value.Some? {
        results, moments := results + [value.value], moments + [store.runtime];
        assert store.revision in store.history;
      }
    }
    assert steps[..|steps|] == steps;
  }

  /** One step; only a read returns a value. */
  method Perform<T(==)>(store: SettingsStore, memo: RevisionMemo<T>, step: Step) returns (value: Option<T>)
    requires memo.store == store && memo.Valid()
    requires step.SetParsed? ==> step.key in store.definitions
    modifies store, memo
    ensures memo.Valid() && Extends(old(store.history), store.history)
    ensures store.runtime == LayerAfterStep(store.definitions, old(store.runtime), step)
    ensures value == if step == Read then Some(memo.compute(store.runtime)) else None
  {
    value := None;
    match step {
      case Read =>
        var read := memo.Read();
        value := Some(read);
      case Set(key, given) => var _ := store.SetRuntimeValue(key, given);
      case SetParsed(key, given) => store.SetParsedRuntimeValue(key, given);
      case SetMany(values) => var _ := store.SetRuntimeValues(values);
      case Delete(keys) => store.DeleteRuntimeValues(keys);
      case Clear => store.ClearRuntimeValues();
    }
  }
}
