/**
 Sparse preference overrides: a profile stores only what differs from the defaults, each value through the codec of its
 field, and reads the defaults with its overrides laid on top.
 */
module Preferences {
  import opened Text
  import opened ValueCodecs

  type Key = string
  type Profile = string
  type Overrides = map<Key, string>

  // ----- updates and reads

  /** The fields, their codecs, and the language fields for which a blank text means cleared. */
  datatype Fields = Fields(js: Conversions, codecs: map<Key, FieldCodec>, nullable: set<Key>)

  /** No preference is a list. */
  type FieldCodec = codec: Codec | !codec.ListCodec? witness TextCodec

  type Defaults = map<Key, Value>

  /** A partial update; `None` is a key present with the value `undefined`. */
  type Body = map<Key, Option<Value>>

  predicate Fits(fields: Fields, defaults: Defaults) {
    defaults.Keys == fields.codecs.Keys
  }

  predicate Touches(fields: Fields, body: Body, key: Key) {
    key in fields.codecs && key in body && body[key].Some?
  }

  /** `normalizePreferenceValue`. */
  function Normalized(fields: Fields, key: Key, value: Value): Value {
    if key in fields.nullable && value.Str? && IsBlank(value.text) then Null else value
  }

  function NewValue(fields: Fields, body: Body, key: Key): Value
    requires Touches(fields, body, key)
  {
    Normalized(fields, key, body[key].value)
  }

  /** A cleared value, or one equal to the default, removes the override. */
  predicate Prunes(fields: Fields, defaults: Defaults, body: Body, key: Key)
    requires Fits(fields, defaults) && Touches(fields, body, key)
  {
    NewValue(fields, body, key) == Null || NewValue(fields, body, key) == defaults[key]
  }

  /** The overrides `applyUpdate` leaves. */
  function Updated(fields: Fields, defaults: Defaults, overrides: Overrides, body: Body): Overrides
    requires Fits(fields, defaults)
  {
    map key | key in overrides.Keys + body.Keys && Survives(fields, defaults, overrides, body, key) ::
      if Touches(fields, body, key) then Serialize(fields.js, NewValue(fields, body, key)) else overrides[key]
  }

  predicate Survives(fields: Fields, defaults: Defaults, overrides: Overrides, body: Body, key: Key)
    requires Fits(fields, defaults)
  {
    if Touches(fields, body, key) then !Prunes(fields, defaults, body, key) else key in overrides
  }

  /** What a stored override says; `Null` when there is none or it does not parse. */
  function Override(fields: Fields, overrides: Overrides, key: Key): Value {
    if key in fields.codecs && key in overrides then Parse(fields.js, fields.codecs[key], overrides[key]) else Null
  }

  /** `mergePreferenceOverrides`. */
  function Effective(fields: Fields, defaults: Defaults, overrides: Overrides): map<Key, Value> {
    map key | key in defaults ::
      if Override(fields, overrides, key) != Null then Override(fields, overrides, key) else defaults[key]
  }

  ghost predicate TypedBody(fields: Fields, body: Body) {
    forall key :: Touches(fields, body, key) ==> body[key].value == Null || Typed(fields.codecs[key], body[key].value)
  }

  /** What the body asks a field to be: its value, or the default when cleared. */
  function Wanted(fields: Fields, defaults: Defaults, body: Body, key: Key): Value
    requires Fits(fields, defaults) && Touches(fields, body, key)
  {
    if NewValue(fields, body, key) == Null then defaults[key] else NewValue(fields, body, key)
  }

  /** The caller asks to have no override: the value is null, the default, or blank text in a field that may be cleared. */
  predicate Clears(fields: Fields, defaults: Defaults, key: Key, value: Value) {
    value == Null || (key in defaults && value == defaults[key]) || (value.Str? && IsBlank(value.text) && key in fields.nullable)
  }

  /**
   The overrides an update leaves, one field at a time: a known field the body gives a value for loses its override if the
   value clears it and else has that value's text; a field that is unknown, absent or undefined in the body stays as it was.
   */
  lemma UpdateIsPerField(fields: Fields, defaults: Defaults, overrides: Overrides, body: Body, key: Key)
    requires Fits(fields, defaults)
    ensures var after := Updated(fields, defaults, overrides, body);
      if key in defaults && key in body && body[key] != None then
        && (key in after <==> !Clears(fields, defaults, key, body[key].value))
        && (key in after ==> after[key] == Serialize(fields.js, body[key].value))
      else (key in after <==> key in overrides) && (key in after ==> after[key] == overrides[key])
  {
  }

  /** Reading after an update gives what the body asked, exactly when the value was pruned or survives its codec. */
  lemma ReadAfterUpdateIff(fields: Fields, defaults: Defaults, overrides: Overrides, body: Body, key: Key)
    requires Faithful(fields.js) && Fits(fields, defaults) && TypedBody(fields, body) && Touches(fields, body, key)
    ensures Effective(fields, defaults, Updated(fields, defaults, overrides, body))[key] == Wanted(fields, defaults, body, key)
      <==> Prunes(fields, defaults, body, key) || Storable(fields.codecs[key], NewValue(fields, body, key))
  {
    var after, value := Updated(fields, defaults, overrides, body), NewValue(fields, body, key);
    if Prunes(fields, defaults, body, key) {
      assert key !in after;
    } else {
      assert key in after && after[key] == Serialize(fields.js, value);
      assert body[key].value == value;
      RoundTripIff(fields.js, fields.codecs[key], value);
    }
  }

  /** Fields the body does not mention read as before. */
  lemma OtherFieldsStay(fields: Fields, defaults: Defaults, overrides: Overrides, body: Body, key: Key)
    requires Fits(fields, defaults) && key in defaults && !Touches(fields, body, key)
    ensures Effective(fields, defaults, Updated(fields, defaults, overrides, body))[key] == Effective(fields, defaults, overrides)[key]
  {
    var after := Updated(fields, defaults, overrides, body);
    assert key in after <==> key in overrides;
  }

  /** The later body wins where it says something. */
  function Overlaid(first: Body, second: Body): Body {
    map key | key in first.Keys + second.Keys ::
      if key in second && (second[key].Some? || key !in first) then second[key] else first[key]
  }

  /** Two updates are one with the later body laid over the earlier. */
  lemma TwoUpdatesAreOne(fields: Fields, defaults: Defaults, overrides: Overrides, first: Body, second: Body)
    requires Fits(fields, defaults)
    ensures Updated(fields, defaults, Updated(fields, defaults, overrides, first), second)
      == Updated(fields, defaults, overrides, Overlaid(first, second))
  {
    var mid := Updated(fields, defaults, overrides, first);
    var twice, once := Updated(fields, defaults, mid, second), Updated(fields, defaults, overrides, Overlaid(first, second));
    forall key ensures key in twice <==> key in once
      ensures key in twice && key in once ==> twice[key] == once[key]
    {
      OneKeyTwice(fields, defaults, overrides, first, second, key);
    }
  }

  lemma OneKeyTwice(fields: Fields, defaults: Defaults, overrides: Overrides, first: Body, second: Body, key: Key)
    requires Fits(fields, defaults)
    ensures var mid, both := Updated(fields, defaults, overrides, first), Overlaid(first, second);
      var twice, once := Updated(fields, defaults, mid, second), Updated(fields, defaults, overrides, both);
      (key in twice <==> key in once) && (key in twice && key in once ==> twice[key] == once[key])
  {
    var mid, both := Updated(fields, defaults, overrides, first), Overlaid(first, second);
    if Touches(fields, second, key) {
      assert both[key] == second[key];
    } else if Touches(fields, first, key) {
      assert both[key] == first[key];
      assert key in mid <==> Survives(fields, defaults, overrides, first, key);
    } else {
      assert !Touches(fields, both, key);
      assert key in mid <==> key in overrides;
    }
  }

  /** No override says what the default says. */
  predicate Sparse(fields: Fields, defaults: Defaults, overrides: Overrides)
    requires Fits(fields, defaults)
  {
    forall key :: key in overrides && key in fields.codecs && Override(fields, overrides, key) != Null ==>
      Override(fields, overrides, key) != defaults[key]
  }

  ghost predicate StorableBody(fields: Fields, body: Body) {
    forall key :: Touches(fields, body, key) ==>
      NewValue(fields, body, key) == Null
        || (Typed(fields.codecs[key], NewValue(fields, body, key)) && Storable(fields.codecs[key], NewValue(fields, body, key)))
  }

  /** Updates with storable values never leave an override that repeats its default. */
  lemma SparseStays(fields: Fields, defaults: Defaults, overrides: Overrides, body: Body)
    requires Faithful(fields.js) && Fits(fields, defaults) && StorableBody(fields, body) && Sparse(fields, defaults, overrides)
    ensures Sparse(fields, defaults, Updated(fields, defaults, overrides, body))
  {
    var after := Updated(fields, defaults, overrides, body);
    forall key | key in after && key in fields.codecs && Override(fields, after, key) != Null
      ensures Override(fields, after, key) != defaults[key]
    {
      if Touches(fields, body, key) {
        RoundTripIff(fields.js, fields.codecs[key], NewValue(fields, body, key));
      } else {
        assert Override(fields, after, key) == Override(fields, overrides, key);
      }
    }
  }

  /**
   A changed default shows through exactly on the fields without an override of their own; elsewhere nothing changes, and
   the read is the new default only if the override happens to say the same.
   */
  lemma DefaultShowsThroughIff(fields: Fields, before: Defaults, after: Defaults, overrides: Overrides, key: Key)
    requires Fits(fields, before) && Fits(fields, after) && key in before && before[key] != after[key]
    ensures Effective(fields, after, overrides)[key] == after[key]
      <==> Override(fields, overrides, key) == Null || Override(fields, overrides, key) == after[key]
    ensures Effective(fields, after, overrides)[key] == Effective(fields, before, overrides)[key]
      <==> Override(fields, overrides, key) != Null
  {
  }

  // ----- the repository

  class PreferencesRepository {
    const fields: Fields
    var rows: map<Profile, Overrides>
    var cache: map<Profile, Overrides>

    function RowsOf(profile: Profile): Overrides
      reads this`rows
    {
      if profile in rows then rows[profile] else map[]
    }

    /** What is cached is what the table holds. */
    ghost predicate Coherent()
      reads this`rows, this`cache
    {
      forall profile :: profile in cache ==> cache[profile] == RowsOf(profile)
    }

    constructor (fields: Fields, rows: map<Profile, Overrides>)
      ensures this.fields == fields && this.rows == rows && Coherent()
    {
      this.fields, this.rows, cache := fields, rows, map[];
    }

    /** `listByProfileId`: from the cache or the table; inside a transaction the cache is neither read nor filled. */
    method ListByProfileId(profile: Profile, inTransaction: bool) returns (overrides: Overrides)
      requires Coherent()
      modifies this`cache
      ensures Coherent() && overrides == RowsOf(profile)
      ensures inTransaction ==> cache == old(cache)
    {
      if !inTransaction && profile in cache { return cache[profile]; }
      overrides := RowsOf(profile);
      if !inTransaction { cache := cache[profile := overrides]; }
    }

    method GetEffective(profile: Profile, defaults: Defaults, inTransaction: bool) returns (preferences: map<Key, Value>)
      requires Coherent()
      modifies this`cache
      ensures Coherent() && preferences == Effective(fields, defaults, RowsOf(profile))
      ensures inTransaction ==> cache == old(cache)
    {
      var overrides := ListByProfileId(profile, inTransaction);
      preferences := MergeOverrides(fields, defaults, overrides);
    }

    /** `applyUpdate`: without a transaction it opens one, and drops the cache entry once more after the commit. */
    method ApplyUpdate(profile: Profile, defaults: Defaults, body: Body, inTransaction: bool) returns (preferences: map<Key, Value>)
      requires Coherent() && Fits(fields, defaults)
      modifies this
      ensures Coherent()
      ensures RowsOf(profile) == Updated(fields, defaults, old(RowsOf(profile)), body)
      ensures forall other :: other != profile ==> RowsOf(other) == old(RowsOf(other))
      ensures preferences == Effective(fields, defaults, RowsOf(profile))
    {
      ghost var before := RowsOf(profile);
      var upserts, removals := Split(fields, defaults, body);
      DeleteMany(profile, removals);
      SetMany(profile, upserts);
      SplitIsUpdate(fields, defaults, before, body, upserts, removals);
      preferences := GetEffective(profile, defaults, true);
      if !inTransaction { cache := cache - {profile}; }
    }

    method DeleteMany(profile: Profile, keys: set<Key>)
      requires Coherent()
      modifies this
      ensures Coherent() && RowsOf(profile) == old(RowsOf(profile)) - keys
      ensures forall other :: other != profile ==> RowsOf(other) == old(RowsOf(other))
    {
      if keys == {} {
        assert RowsOf(profile) - keys == RowsOf(profile);
        return;
      }
      rows := rows[profile := RowsOf(profile) - keys];
      cache := cache - {profile};
    }

    method SetMany(profile: Profile, entries: Overrides)
      requires Coherent()
      modifies this
      ensures Coherent() && RowsOf(profile) == old(RowsOf(profile)) + entries
      ensures forall other :: other != profile ==> RowsOf(other) == old(RowsOf(other))
    {
      if entries == map[] {
        assert RowsOf(profile) + entries == RowsOf(profile);
        return;
      }
      rows := rows[profile := RowsOf(profile) + entries];
      cache := cache - {profile};
    }

    method Reset(profile: Profile, defaults: Defaults, inTransaction: bool) returns (preferences: map<Key, Value>)
      requires Coherent()
      modifies this
      ensures Coherent() && RowsOf(profile) == map[] && preferences == defaults
      ensures forall other :: other != profile ==> RowsOf(other) == old(RowsOf(other))
    {
      rows := rows[profile := map[]];
      cache := cache - {profile};
      preferences := GetEffective(profile, defaults, inTransaction);
    }

    /** `copyFrom`: the target ends with the source's overrides and reads as the source does. */
    method CopyFrom(source: Profile, target: Profile, defaults: Defaults) returns (preferences: map<Key, Value>)
      requires Coherent()
      modifies this
      ensures Coherent() && RowsOf(target) == old(RowsOf(source))
      ensures preferences == Effective(fields, defaults, old(RowsOf(source)))
      ensures forall other :: other != target ==> RowsOf(other) == old(RowsOf(other))
    {
      var overrides := ListByProfileId(source, false);
      rows := rows[target := map[]];
      cache := cache - {target};
      SetMany(target, overrides);
      assert map[] + overrides == overrides;
      cache := cache - {target};
      preferences := GetEffective(target, defaults, false);
    }
  }

  /** The loop of `mergePreferenceOverrides`, and the spread over the defaults. */
  method MergeOverrides(fields: Fields, defaults: Defaults, overrides: Overrides) returns (merged: map<Key, Value>)
    ensures merged == Effective(fields, defaults, overrides)
  {
    var parsed: map<Key, Value> := map[];
    var left := overrides.Keys;
    while left != {}
      invariant left <= overrides.Keys
      invariant forall key :: key in parsed <==> key in overrides && key !in left && Override(fields, overrides, key) != Null
      invariant forall key :: key in parsed ==> parsed[key] == Override(fields, overrides, key)
      decreases |left|
    {
      var key :| key in left;
      left := left - {key};
      if key in fields.codecs {
        var value := Parse(fields.js, fields.codecs[key], overrides[key]);
        if value != Null { parsed := parsed[key := value]; }
      }
    }
    merged := map key | key in defaults :: if key in parsed then parsed[key] else defaults[key];
  }

  /** The loop of `applyUpdate` over the keys of the body. */
  method Split(fields: Fields, defaults: Defaults, body: Body) returns (upserts: Overrides, removals: set<Key>)
    requires Fits(fields, defaults)
    ensures IsSplit(fields, defaults, body, body.Keys, upserts, removals)
  {
    upserts, removals := map[], {};
    var left := body.Keys;
    while left != {}
      invariant left <= body.Keys && IsSplit(fields, defaults, body, body.Keys - left, upserts, removals)
      decreases |left|
    {
      var key :| key in left;
      left := left - {key};
      if key !in fields.codecs || body[key].None? { continue; }
      var value := body[key].value;
      if key in fields.nullable && value.Str? {
        var blank := TrimsAway(value.text);
        if blank { value := Null; }
      }
      if value == Null || value == defaults[key] {
        removals := removals + {key};
      } else {
        upserts := upserts[key := Serialize(fields.js, value)];
      }
    }
    assert body.Keys - {} == body.Keys;
  }

  ghost predicate IsSplit(fields: Fields, defaults: Defaults, body: Body, done: set<Key>, upserts: Overrides, removals: set<Key>)
    requires Fits(fields, defaults)
  {
    && (forall key :: key in removals <==> key in done && Touches(fields, body, key) && Prunes(fields, defaults, body, key))
    && (forall key :: key in upserts <==> key in done && Touches(fields, body, key) && !Prunes(fields, defaults, body, key))
    && (forall key :: key in upserts ==> Touches(fields, body, key) && upserts[key] == Serialize(fields.js, NewValue(fields, body, key)))
  }

  lemma SplitIsUpdate(fields: Fields, defaults: Defaults, overrides: Overrides, body: Body, upserts: Overrides, removals: set<Key>)
    requires Fits(fields, defaults) && IsSplit(fields, defaults, body, body.Keys, upserts, removals)
    ensures overrides - removals + upserts == Updated(fields, defaults, overrides, body)
  {
  }
}
