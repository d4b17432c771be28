/**
 The secrets file: its line format, its parser, and the boot that fills missing secrets from the environment, then from
 the file, and generates and persists the rest.
 */
module Secrets {
  import opened Text

  type Values = map<string, string>

  const SETUP_TOKEN := "SETUP_TOKEN"
  const BETTER_AUTH_SECRET := "BETTER_AUTH_SECRET"
  const PERSISTED_SECRET_KEYS := [SETUP_TOKEN, BETTER_AUTH_SECRET]

  // ----- lines

  predicate NoNewline(s: string) {
    '\n' !in s
  }

  /** `split("\n")`. */
  function Lines(text: string): (lines: seq<string>)
    ensures lines != [] && forall line :: line in lines ==> NoNewline(line)
  {
    if text == [] then [[]]
    else
      var rest := Lines(text[1..]);
      assert rest[0] in rest && forall line :: line in rest[1..] ==> line in rest;
      if text[0] == '\n' then [[]] + rest else [[text[0]] + rest[0]] + rest[1..]
  }

  /** Every line, each ended by a newline. */
  function Ended(lines: seq<string>): string {
    if lines == [] then [] else lines[0] + "\n" + Ended(lines[1..])
  }

  lemma {:induction false} FirstLine(line: string, rest: string)
    requires NoNewline(line)
    ensures Lines(line + "\n" + rest) == [line] + Lines(rest)
  {
    var text := line + "\n" + rest;
    if line == [] {
      assert text[0] == '\n' && text[1..] == rest;
    } else {
      assert text[0] == line[0] && text[1..] == line[1..] + "\n" + rest;
      FirstLine(line[1..], rest);
      assert [line[0]] + line[1..] == line;
    }
  }

  lemma {:induction false} LinesOfEnded(lines: seq<string>)
    requires forall line :: line in lines ==> NoNewline(line)
    ensures Lines(Ended(lines)) == lines + [[]]
  {
    if lines != [] {
      assert lines[0] in lines;
      FirstLine(lines[0], Ended(lines[1..]));
      LinesOfEnded(lines[1..]);
      assert [lines[0]] + (lines[1..] + [[]]) == lines + [[]];
    }
  }

  // ----- the format

  function IndexOf(s: string, c: char): (i: int)
    ensures -1 <= i < |s|
    ensures i >= 0 ==> s[i] == c && c !in s[..i]
    ensures i == -1 ==> c !in s
  {
    if s == [] then -1
    else if s[0] == c then 0
    else
      var rest := IndexOf(s[1..], c);
      assert s == [s[0]] + s[1..];
      assert rest >= 0 ==> s[..rest + 1] == [s[0]] + s[1..][..rest];
      if rest == -1 then -1 else rest + 1
  }

  /** A known key with a value. */
  function Named(keys: seq<string>, key: string, value: string): Option<(string, string)> {
    if key !in keys || value == [] then None else Some((key, value))
  }

  /** What a trimmed line says. */
  function Entry(keys: seq<string>, trimmed: string): Option<(string, string)> {
    if trimmed == [] || trimmed[0] == '#' then None
    else
      var separator := IndexOf(trimmed, '=');
      if separator <= 0 then None else Named(keys, Trim(trimmed[..separator]), Trim(trimmed[separator + 1..]))
  }

  function Entries(keys: seq<string>, lines: seq<string>): (entries: seq<Option<(string, string)>>)
    ensures |entries| == |lines|
  {
    seq(|lines|, i requires 0 <= i < |lines| => Entry(keys, Trim(lines[i])))
  }

  /** Later entries win. */
  function Collected(entries: seq<Option<(string, string)>>): Values {
    if entries == [] then map[]
    else
      var before, last := Collected(entries[..|entries| - 1]), entries[|entries| - 1];
      if last.Some? then before[last.value.0 := last.value.1] else before
  }

  /** `readSecretsFile`; no file reads as no values. */
  function ReadSecrets(keys: seq<string>, file: Option<string>): Values {
    if file.None? then map[] else Collected(Entries(keys, Lines(file.value)))
  }

  function Assignment(key: string, value: string): string {
    key + "=" + value
  }

  function Comment(key: string): string {
    "#" + key + "="
  }

  function LineFor(key: string, values: Values): string {
    if key in values && values[key] != [] then Assignment(key, values[key]) else Comment(key)
  }

  function LinesFor(keys: seq<string>, values: Values): (lines: seq<string>)
    ensures |lines| == |keys|
  {
    seq(|keys|, i requires 0 <= i < |keys| => LineFor(keys[i], values))
  }

  /** `writeSecretsFile`. */
  function WriteSecrets(keys: seq<string>, values: Values): string {
    Ended(LinesFor(keys, values))
  }

  method ReadSecretsFile(keys: seq<string>, file: Option<string>) returns (parsed: Values)
    ensures parsed == ReadSecrets(keys, file)
  {
    parsed := map[];
    if file.None? { return; }
    var lines := Lines(file.value);
    ghost var entries := Entries(keys, lines);
    for i := 0 to |lines|
      invariant parsed == Collected(entries[..i])
    {
      CollectNext(entries, i);
      var entry := ReadLine(keys, lines[i]);
      if entry.Some? { parsed := parsed[entry.value.0 := entry.value.1]; }
    }
    assert entries[..|lines|] == entries;
  }

  lemma CollectNext(entries: seq<Option<(string, string)>>, i: nat)
    requires i < |entries|
    ensures Collected(entries[..i + 1]) == (
      if entries[i].Some? then Collected(entries[..i])[entries[i].value.0 := entries[i].value.1] else Collected(entries[..i]))
  {
    assert entries[..i + 1][..i] == entries[..i];
  }

  /** The body of the parsing loop. */
  method ReadLine(keys: seq<string>, line: string) returns (entry: Option<(string, string)>)
    ensures entry == Entry(keys, Trim(line))
  {
    var trimmed := Trim(line);
    if trimmed == [] || trimmed[0] == '#' { return None; }
    var separator := IndexOf(trimmed, '=');
    if separator <= 0 { return None; }
    var key := Trim(trimmed[..separator]);
    if key !in keys { return None; }
    var value := Trim(trimmed[separator + 1..]);
    if value == [] { return None; }
    return Some((key, value));
  }

  // ----- the round trip

  /** The values the format can hold. */
  predicate Storable(value: string) {
    value != [] && Trimmed(value) && NoNewline(value)
  }

  predicate AllStorable(values: Values) {
    forall key :: key in values ==> Storable(values[key])
  }

  /** A key the format can name. */
  predicate WellNamed(key: string) {
    key != [] && Trimmed(key) && '=' !in key && '\n' !in key && key[0] != '#' && !IsSpace(key[0])
  }

  predicate WellKeyed(keys: seq<string>) {
    (forall key :: key in keys ==> WellNamed(key)) && forall i, j :: 0 <= i < j < |keys| ==> keys[i] != keys[j]
  }

  lemma TrimEnds(s: string)
    requires s != [] && Trimmed(s)
    ensures !IsSpace(s[0]) && !IsSpace(s[|s| - 1])
  {
  }

  lemma {:induction false} EqualsSignAt(key: string, value: string)
    requires '=' !in key
    ensures IndexOf(key + "=" + value, '=') == |key|
  {
    var line := key + "=" + value;
    if key == [] {
      assert line[0] == '=';
    } else {
      assert line[0] == key[0] && line[1..] == key[1..] + "=" + value;
      EqualsSignAt(key[1..], value);
    }
  }

  lemma TrimOf(s: string)
    requires s != [] && !IsSpace(s[0]) && !IsSpace(s[|s| - 1])
    ensures Trim(s) == s
  {
  }

  lemma AssignmentIsTrimmed(key: string, value: string)
    requires WellNamed(key) && Storable(value)
    ensures Trim(Assignment(key, value)) == Assignment(key, value) && NoNewline(Assignment(key, value))
  {
    var line := Assignment(key, value);
    TrimEnds(value);
    assert line[0] == key[0] && line[|line| - 1] == value[|value| - 1];
    TrimOf(line);
  }

  lemma AssignmentParts(keys: seq<string>, key: string, value: string)
    requires key in keys && WellNamed(key) && Storable(value)
    ensures Entry(keys, Assignment(key, value)) == Some((key, value))
  {
    var line := Assignment(key, value);
    EqualsSignAt(key, value);
    AssignmentSlices(key, value);
    TrimmedIff(key);
    TrimmedIff(value);
    assert Entry(keys, line) == Named(keys, Trim(line[..|key|]), Trim(line[|key| + 1..]));
  }

  lemma AssignmentSlices(key: string, value: string)
    requires key != []
    ensures var line := Assignment(key, value); line != [] && line[0] == key[0] && line[..|key|] == key && line[|key| + 1..] == value
  {
  }

  lemma CommentSaysNothing(keys: seq<string>, key: string)
    requires NoNewline(key)
    ensures Entry(keys, Trim(Comment(key))) == None && NoNewline(Comment(key))
  {
    var line := Comment(key);
    HashIsNotASpace();
    assert line[0] == '#' && line[|line| - 1] == '=';
    TrimOf(line);
  }

  /** A line written for a storable value says just that; a line written for no value says nothing. */
  lemma LineSays(keys: seq<string>, key: string, values: Values)
    requires key in keys && WellNamed(key) && (key in values ==> Storable(values[key]))
    ensures NoNewline(LineFor(key, values))
    ensures Entry(keys, Trim(LineFor(key, values))) == if key in values then Some((key, values[key])) else None
  {
    if key in values {
      assert LineFor(key, values) == Assignment(key, values[key]);
      AssignmentIsTrimmed(key, values[key]);
      AssignmentParts(keys, key, values[key]);
    } else {
      CommentSaysNothing(keys, key);
    }
  }

  lemma HashIsNotASpace()
    ensures !IsSpace('#') && !IsSpace('=')
  {
  }

  /** A line by hand: the key, an equals sign and the value, with any blank text around the key and around the value. */
  ghost predicate Says(line: string, key: string, value: string) {
    exists a, b, c, d :: Padded(line, key, value, a, b, c, d)
  }

  predicate Padded(line: string, key: string, value: string, a: string, b: string, c: string, d: string) {
    line == a + key + b + "=" + c + value + d && IsBlank(a) && IsBlank(b) && IsBlank(c) && IsBlank(d)
  }

  /** Whoever wrote it, a line gives a value exactly when it says so of a known key, and the value is not empty. */
  lemma LineReadsIff(keys: seq<string>, line: string, key: string, value: string)
    requires forall known :: known in keys ==> WellNamed(known)
    ensures Entry(keys, Trim(line)) == Some((key, value))
      <==> key in keys && value != "" && Trimmed(value) && Says(line, key, value)
  {
    if Entry(keys, Trim(line)) == Some((key, value)) {
      ReadLineSays(keys, line, key, value);
    } else if key in keys && value != "" && Trimmed(value) && Says(line, key, value) {
      SaidLineReads(keys, line, key, value);
    }
  }

  lemma SaidLineReads(keys: seq<string>, line: string, key: string, value: string)
    requires key in keys && WellNamed(key) && value != "" && Trimmed(value) && Says(line, key, value)
    ensures Entry(keys, Trim(line)) == Some((key, value))
  {
    var a, b, c, d :| Padded(line, key, value, a, b, c, d);
    PaddedLineReads(keys, line, key, value, a, b, c, d);
  }

  /** Where a trimmed line that is no comment is split. */
  lemma SplitEntry(keys: seq<string>, left: string, right: string)
    requires left != [] && left[0] != '#' && '=' !in left
    ensures Entry(keys, left + "=" + right) == Named(keys, Trim(left), Trim(right))
  {
    EqualsSignAt(left, right);
    AssignmentSlices(left, right);
  }

  lemma EntrySplits(keys: seq<string>, text: string) returns (left: string, right: string)
    requires Entry(keys, text).Some?
    ensures text == left + "=" + right && Named(keys, Trim(left), Trim(right)) == Entry(keys, text)
  {
    var separator := IndexOf(text, '=');
    left, right := text[..separator], text[separator + 1..];
    AroundSign(text, separator);
  }

  lemma AroundSign(text: string, i: nat)
    requires i < |text| && text[i] == '='
    ensures text[..i] + "=" + text[i + 1..] == text
  {
  }

  lemma ReadLineSays(keys: seq<string>, line: string, key: string, value: string)
    requires Entry(keys, Trim(line)) == Some((key, value))
    ensures key in keys && value != "" && Trimmed(value) && Says(line, key, value)
  {
    var before, after := TrimParts(line);
    var left, right := EntrySplits(keys, Trim(line));
    NamedIs(keys, Trim(left), Trim(right), key, value);
    var a, b := TrimParts(left);
    var c, d := TrimParts(right);
    PaddedFrom(line, before, Trim(line), after, left, right, a, key, b, c, value, d);
  }

  lemma NamedIs(keys: seq<string>, name: string, text: string, key: string, value: string)
    requires Named(keys, name, text) == Some((key, value))
    ensures key == name && value == text && key in keys && value != ""
  {
  }

  lemma PaddedFrom(line: string, before: string, text: string, after: string, left: string, right: string,
                   a: string, key: string, b: string, c: string, value: string, d: string)
    requires line == before + text + after && text == left + "=" + right && left == a + key + b && right == c + value + d
    requires IsBlank(before) && IsBlank(after) && IsBlank(a) && IsBlank(b) && IsBlank(c) && IsBlank(d)
    ensures Says(line, key, value)
  {
    Regrouped(before, a, key, b, c, value, d, after);
    assert Padded(line, key, value, before + a, b, c, d + after);
  }

  lemma Regrouped(before: string, a: string, key: string, b: string, c: string, value: string, d: string, after: string)
    ensures before + (a + key + b + "=" + (c + value + d)) + after
      == (before + a) + key + b + "=" + c + value + (d + after)
  {
  }

  lemma PaddedLineReads(keys: seq<string>, line: string, key: string, value: string, a: string, b: string, c: string, d: string)
    requires key in keys && WellNamed(key) && value != "" && Trimmed(value) && Padded(line, key, value, a, b, c, d)
    ensures Entry(keys, Trim(line)) == Some((key, value))
  {
    PaddedGroups(line, key, value, a, b, c, d);
    PaddedTrims(key, b, c, value, a, d);
    PaddedEntry(keys, key, b, c, value);
  }

  lemma PaddedGroups(line: string, key: string, value: string, a: string, b: string, c: string, d: string)
    requires Padded(line, key, value, a, b, c, d)
    ensures line == a + ((key + b) + "=" + (c + value)) + d
  {
  }

  lemma PaddedEntry(keys: seq<string>, key: string, b: string, c: string, value: string)
    requires key in keys && WellNamed(key) && value != "" && Trimmed(value) && IsBlank(b) && IsBlank(c)
    ensures Entry(keys, (key + b) + "=" + (c + value)) == Some((key, value))
  {
    NoSignInKey(key, b);
    SplitEntry(keys, key + b, c + value);
    TrimOfPadded("", key, b);
    TrimOfPadded(c, value, "");
    assert "" + key + b == key + b && c + value + "" == c + value;
  }

  lemma NoSignInKey(key: string, b: string)
    requires WellNamed(key) && IsBlank(b)
    ensures key + b != "" && (key + b)[0] != '#' && '=' !in key + b
  {
    HashIsNotASpace();
  }

  lemma PaddedTrims(key: string, b: string, c: string, value: string, a: string, d: string)
    requires key != "" && Trimmed(key) && value != "" && Trimmed(value) && IsBlank(a) && IsBlank(d)
    ensures Trim(a + ((key + b) + "=" + (c + value)) + d) == (key + b) + "=" + (c + value)
  {
    var text := (key + b) + "=" + (c + value);
    assert text[0] == key[0] && text[|text| - 1] == value[|value| - 1];
    TrimOfPadded(a, text, d);
  }

  /** What the written lines say, key by key. */
  function Sayings(keys: seq<string>, values: Values): (entries: seq<Option<(string, string)>>)
    ensures |entries| == |keys|
  {
    seq(|keys|, i requires 0 <= i < |keys| => if keys[i] in values then Some((keys[i], values[keys[i]])) else None)
  }

  lemma {:induction false} SayingsCollect(keys: seq<string>, values: Values, n: nat)
    requires n <= |keys|
    ensures Collected(Sayings(keys, values)[..n]) == map key | key in values && key in keys[..n] :: values[key]
  {
    if n > 0 {
      SayingsCollect(keys, values, n - 1);
      var entries := Sayings(keys, values);
      assert entries[..n][..n - 1] == entries[..n - 1] && keys[..n] == keys[..n - 1] + [keys[n - 1]];
    }
  }

  lemma WrittenLinesSay(keys: seq<string>, values: Values)
    requires WellKeyed(keys) && AllStorable(values)
    ensures Entries(keys, LinesFor(keys, values)) == Sayings(keys, values)
    ensures forall line :: line in LinesFor(keys, values) ==> NoNewline(line)
  {
    forall i | 0 <= i < |keys|
      ensures Entries(keys, LinesFor(keys, values))[i] == Sayings(keys, values)[i] && NoNewline(LinesFor(keys, values)[i])
    {
      assert keys[i] in keys;
      LineSays(keys, keys[i], values);
    }
  }

  lemma StorableRoundTrip(keys: seq<string>, values: Values)
    requires WellKeyed(keys) && AllStorable(values) && forall key :: key in values ==> key in keys
    ensures ReadSecrets(keys, Some(WriteSecrets(keys, values))) == values
  {
    WrittenLinesSay(keys, values);
    ReadEnded(keys, LinesFor(keys, values));
    AllSayingsCollect(keys, values);
  }

  lemma AllSayingsCollect(keys: seq<string>, values: Values)
    requires forall key :: key in values ==> key in keys
    ensures Collected(Sayings(keys, values)) == values
  {
    var entries := Sayings(keys, values);
    SayingsCollect(keys, values, |keys|);
    assert entries[..|keys|] == entries && keys[..|keys|] == keys;
    assert (map key | key in values && key in keys :: values[key]) == values;
  }

  /** Reading ended lines reads those lines. */
  lemma ReadEnded(keys: seq<string>, lines: seq<string>)
    requires forall line :: line in lines ==> NoNewline(line)
    ensures ReadSecrets(keys, Some(Ended(lines))) == Collected(Entries(keys, lines))
  {
    LinesOfEnded(lines);
    EntriesOfMore(keys, lines);
    CollectMore(Entries(keys, lines));
  }

  lemma EntriesOfMore(keys: seq<string>, lines: seq<string>)
    ensures Entries(keys, lines + [[]]) == Entries(keys, lines) + [None]
  {
  }

  lemma CollectMore(entries: seq<Option<(string, string)>>)
    ensures Collected(entries + [None]) == Collected(entries)
  {
  }

  predicate GoodEntry(keys: seq<string>, entry: Option<(string, string)>) {
    entry.Some? ==> entry.value.0 in keys && Storable(entry.value.1)
  }

  lemma {:induction false} CollectedIsGood(keys: seq<string>, entries: seq<Option<(string, string)>>)
    requires forall i :: 0 <= i < |entries| ==> GoodEntry(keys, entries[i])
    ensures AllStorable(Collected(entries)) && forall key :: key in Collected(entries) ==> key in keys
  {
    if entries != [] { CollectedIsGood(keys, entries[..|entries| - 1]); }
  }

  lemma EntryIsGood(keys: seq<string>, line: string)
    requires NoNewline(line)
    ensures GoodEntry(keys, Entry(keys, Trim(line)))
  {
    if Entry(keys, Trim(line)).Some? {
      var left, right := EntrySplits(keys, Trim(line));
      TrimInventsNothing(line, '\n');
      assert '\n' !in left + "=" + right && '\n' !in right;
      TrimInventsNothing(right, '\n');
    }
  }

  /** Whatever is read is storable and under a known key. */
  lemma ReadIsStorable(keys: seq<string>, file: Option<string>)
    ensures AllStorable(ReadSecrets(keys, file)) && forall key :: key in ReadSecrets(keys, file) ==> key in keys
  {
    if file.Some? {
      var lines := Lines(file.value);
      forall i | 0 <= i < |lines| ensures GoodEntry(keys, Entries(keys, lines)[i]) {
        assert lines[i] in lines;
        EntryIsGood(keys, lines[i]);
      }
      CollectedIsGood(keys, Entries(keys, lines));
    }
  }

  /** A padded secret does not survive the file. */
  lemma PaddedSecretIsLost()
    ensures var values := map[SETUP_TOKEN := " s3cret"];
      ReadSecrets(PERSISTED_SECRET_KEYS, Some(WriteSecrets(PERSISTED_SECRET_KEYS, values))) != values
  {
    RoundTripIff(PERSISTED_SECRET_KEYS, map[SETUP_TOKEN := " s3cret"]);
  }

  /** Reading what was written gives the same values exactly when they are all trimmed, non-empty and of one line. */
  lemma RoundTripIff(keys: seq<string>, values: Values)
    requires WellKeyed(keys) && forall key :: key in values ==> key in keys
    ensures ReadSecrets(keys, Some(WriteSecrets(keys, values))) == values <==> AllStorable(values)
  {
    if AllStorable(values) {
      StorableRoundTrip(keys, values);
    }
    ReadIsStorable(keys, Some(WriteSecrets(keys, values)));
  }

  // ----- the boot

  /** What a boot finds in the environment or the file, and what it leaves there. */
  datatype Outcome = Outcome(env: map<string, string>, file: Option<string>, generated: set<string>)

  predicate Present(env: map<string, string>, key: string) {
    key in env && !IsBlank(env[key])
  }

  /** The loop of the boot over the keys it manages. */
  datatype Progress = Progress(env: map<string, string>, effective: Values, generated: Values)

  function FilledOne(progress: Progress, fromFile: Values, key: string, secretFor: string -> string): Progress {
    if Present(progress.env, key) then progress
    else
      var value := if key in fromFile then fromFile[key] else secretFor(key);
      Progress(progress.env[key := value], progress.effective[key := value],
               if key in fromFile then progress.generated else progress.generated[key := value])
  }

  function Filled(env: map<string, string>, fromFile: Values, keys: seq<string>, secretFor: string -> string): Progress {
    if keys == [] then Progress(env, map[], map[])
    else FilledOne(Filled(env, fromFile, keys[..|keys| - 1], secretFor), fromFile, keys[|keys| - 1], secretFor)
  }

  function ManagedKeys(tokenEnabled: bool): seq<string> {
    if tokenEnabled then PERSISTED_SECRET_KEYS else [BETTER_AUTH_SECRET]
  }

  /** `bootstrapPersistedSecrets`. */
  function Booted(keys: seq<string>, managed: seq<string>, env: map<string, string>, file: Option<string>, secretFor: string -> string): Outcome {
    var fromFile := ReadSecrets(keys, file);
    var progress := Filled(env, fromFile, managed, secretFor);
    Outcome(progress.env,
            if progress.generated == map[] then file else Some(WriteSecrets(keys, fromFile + progress.effective)),
            progress.generated.Keys)
  }

  class Boot {
    var env: map<string, string>
    var secretsFile: Option<string>

    constructor (env: map<string, string>, secretsFile: Option<string>)
      ensures this.env == env && this.secretsFile == secretsFile
    {
      this.env, this.secretsFile := env, secretsFile;
    }

    method BootstrapPersistedSecrets(keys: seq<string>, managed: seq<string>, secretFor: string -> string) returns (generated: set<string>)
      modifies this
      ensures Outcome(env, secretsFile, generated) == Booted(keys, managed, old(env), old(secretsFile), secretFor)
    {
      var fromFile := ReadSecretsFile(keys, secretsFile);
      var effective: Values, made: Values := map[], map[];
      ghost var before := env;
      for i := 0 to |managed|
        invariant Progress(env, effective, made) == Filled(before, fromFile, managed[..i], secretFor)
        invariant secretsFile == old(secretsFile)
      {
        assert managed[..i + 1][..i] == managed[..i];
        var key := managed[i];
        var blank := true;
        if key in env { blank := TrimsAway(env[key]); }
        if !blank { continue; }
        if key in fromFile {
          env, effective := env[key := fromFile[key]], effective[key := fromFile[key]];
          continue;
        }
        var secret := secretFor(key);
        env, effective, made := env[key := secret], effective[key := secret], made[key := secret];
      }
      assert managed[..|managed|] == managed;
      if made != map[] { secretsFile := Some(WriteSecrets(keys, fromFile + effective)); }
      generated := made.Keys;
    }
  }

  /** What became of a key: filled from the file or afresh, or left as it was. */
  predicate FilledAs(progress: Progress, env: map<string, string>, fromFile: Values, filled: bool, secretFor: string -> string, key: string) {
    var value := if key in fromFile then fromFile[key] else secretFor(key);
    && (if filled then key in progress.env && progress.env[key] == value
        else (key in progress.env <==> key in env) && (key in env ==> progress.env[key] == env[key]))
    && (key in progress.effective <==> filled) && (filled ==> progress.effective[key] == value)
    && (key in progress.generated <==> filled && key !in fromFile)
  }

  lemma FillsOne(progress: Progress, env: map<string, string>, fromFile: Values, last: string, filled: bool, secretFor: string -> string, key: string)
    requires FilledAs(progress, env, fromFile, filled, secretFor, key) && (key == last ==> !filled)
    ensures FilledAs(FilledOne(progress, fromFile, last, secretFor), env, fromFile,
                     filled || (key == last && !Present(env, key)), secretFor, key)
  {
  }

  /** What the loop leaves: present keys alone, file values next, fresh ones last. */
  lemma {:induction false} FilledIs(env: map<string, string>, fromFile: Values, keys: seq<string>, secretFor: string -> string, key: string)
    requires Distinct(keys)
    ensures FilledAs(Filled(env, fromFile, keys, secretFor), env, fromFile, key in keys && !Present(env, key), secretFor, key)
  {
    if keys != [] {
      var rest, last := keys[..|keys| - 1], keys[|keys| - 1];
      FilledIs(env, fromFile, rest, secretFor, key);
      FillsOne(Filled(env, fromFile, rest, secretFor), env, fromFile, last, key in rest && !Present(env, key), secretFor, key);
      assert keys == rest + [last];
    }
  }

  predicate Distinct(keys: seq<string>) {
    forall i, j :: 0 <= i < j < |keys| ==> keys[i] != keys[j]
  }

  ghost predicate GoodBoot(keys: seq<string>, managed: seq<string>, secretFor: string -> string) {
    WellKeyed(keys) && Distinct(managed) && (forall key :: key in managed ==> key in keys) && forall key :: Storable(secretFor(key))
  }

  function Generated(progress: Progress, secretFor: string -> string): Values {
    map key | key in progress.generated :: secretFor(key)
  }

  /** Only keys missing from the file are generated; the others are written as the file has them. */
  predicate Accounts(progress: Progress, fromFile: Values, managed: seq<string>, secretFor: string -> string, key: string) {
    && (key in progress.generated ==>
          key in managed && key !in fromFile && key in progress.effective && progress.effective[key] == secretFor(key))
    && (key in progress.effective && key !in progress.generated ==> key in fromFile && progress.effective[key] == fromFile[key])
  }

  lemma FilledAccounts(env: map<string, string>, fromFile: Values, managed: seq<string>, secretFor: string -> string, key: string)
    requires Distinct(managed)
    ensures Accounts(Filled(env, fromFile, managed, secretFor), fromFile, managed, secretFor, key)
  {
    FilledIs(env, fromFile, managed, secretFor, key);
  }

  /** What is written is what was read and what was generated. */
  lemma WrittenIsSum(progress: Progress, fromFile: Values, managed: seq<string>, secretFor: string -> string)
    requires forall key :: Accounts(progress, fromFile, managed, secretFor, key)
    ensures fromFile + progress.effective == fromFile + Generated(progress, secretFor)
    ensures forall key :: key in progress.generated ==> key in managed
  {
    var written, sum := fromFile + progress.effective, fromFile + Generated(progress, secretFor);
    forall key ensures key in written <==> key in sum
      ensures key in progress.generated ==> key in managed
      ensures key in written && key in sum ==> written[key] == sum[key]
    {
      assert Accounts(progress, fromFile, managed, secretFor, key);
    }
  }

  /** What the file says after a boot: what it said before, and the secrets the boot generated. */
  lemma FileAfterBoot(keys: seq<string>, managed: seq<string>, env: map<string, string>, file: Option<string>, secretFor: string -> string)
    requires GoodBoot(keys, managed, secretFor)
    ensures var outcome := Booted(keys, managed, env, file, secretFor);
      ReadSecrets(keys, outcome.file) == ReadSecrets(keys, file) + map key | key in outcome.generated :: secretFor(key)
  {
    var fromFile := ReadSecrets(keys, file);
    var progress := Filled(env, fromFile, managed, secretFor);
    var added := Generated(progress, secretFor);
    assert added == map key | key in progress.generated.Keys :: secretFor(key);
    forall key ensures Accounts(progress, fromFile, managed, secretFor, key) {
      FilledAccounts(env, fromFile, managed, secretFor, key);
    }
    WrittenIsSum(progress, fromFile, managed, secretFor);
    ReadIsStorable(keys, file);
    if progress.generated == map[] {
      assert added == map[] && fromFile + added == fromFile;
    } else {
      StorableRoundTrip(keys, fromFile + added);
    }
  }

  /** A boot that finds every managed key in the environment or the file generates nothing and leaves the file alone. */
  lemma QuietBootIff(keys: seq<string>, managed: seq<string>, env: map<string, string>, file: Option<string>, secretFor: string -> string)
    requires Distinct(managed)
    ensures var outcome := Booted(keys, managed, env, file, secretFor);
      && (outcome.generated == {}
          <==> forall key :: key in managed ==> Present(env, key) || key in ReadSecrets(keys, file))
      && (outcome.generated == {} ==> outcome.file == file)
  {
    var fromFile := ReadSecrets(keys, file);
    var progress := Filled(env, fromFile, managed, secretFor);
    forall key ensures key in progress.generated <==> key in managed && !Present(env, key) && key !in fromFile {
      FilledIs(env, fromFile, managed, secretFor, key);
    }
    if progress.generated.Keys == {} { assert progress.generated == map[]; }
  }

  /**
   The environment after a boot: a managed key keeps an explicit value that is not blank, else it has the file's, else a
   fresh one, and only then is it generated; unmanaged keys are untouched.
   */
  lemma EnvironmentAfterBoot(keys: seq<string>, managed: seq<string>, env: map<string, string>, file: Option<string>, secretFor: string -> string, key: string)
    requires GoodBoot(keys, managed, secretFor)
    ensures var outcome, fromFile := Booted(keys, managed, env, file, secretFor), ReadSecrets(keys, file);
      && (key in managed ==> key in outcome.env && !IsBlank(outcome.env[key]))
      && (key !in managed || (key in env && !IsBlank(env[key])) ==>
            (key in outcome.env <==> key in env) && (key in env ==> outcome.env[key] == env[key]) && key !in outcome.generated)
      && (key in managed && (key !in env || IsBlank(env[key])) ==>
            && (key in fromFile ==> outcome.env[key] == fromFile[key] && key !in outcome.generated)
            && (key !in fromFile ==> outcome.env[key] == secretFor(key) && key in outcome.generated))
  {
    FilledIs(env, ReadSecrets(keys, file), managed, secretFor, key);
    ReadIsStorable(keys, file);
    if key in managed && !Present(env, key) {
      var value := if key in ReadSecrets(keys, file) then ReadSecrets(keys, file)[key] else secretFor(key);
      StorableIsNotBlank(value);
    }
  }

  lemma StorableIsNotBlank(value: string)
    requires Storable(value)
    ensures !IsBlank(value)
  {
  }

  // ----- any number of boots

  datatype Start = Start(env: map<string, string>, tokenEnabled: bool, secretFor: string -> string)

  function FileAfter(file: Option<string>, starts: seq<Start>): Option<string> {
    if starts == [] then file
    else
      var last := starts[|starts| - 1];
      Booted(PERSISTED_SECRET_KEYS, ManagedKeys(last.tokenEnabled), last.env, FileAfter(file, starts[..|starts| - 1]), last.secretFor).file
  }

  lemma ManagedIsGood(start: Start)
    requires forall key :: Storable(start.secretFor(key))
    ensures GoodBoot(PERSISTED_SECRET_KEYS, ManagedKeys(start.tokenEnabled), start.secretFor)
  {
  }

  /** Over any sequence of boots, in any environments, a persisted secret never changes and never disappears. */
  lemma {:induction false} SecretsAreStable(file: Option<string>, starts: seq<Start>, key: string)
    requires forall start, k :: start in starts ==> Storable(start.secretFor(k))
    requires key in ReadSecrets(PERSISTED_SECRET_KEYS, file)
    ensures key in ReadSecrets(PERSISTED_SECRET_KEYS, FileAfter(file, starts))
    ensures ReadSecrets(PERSISTED_SECRET_KEYS, FileAfter(file, starts))[key] == ReadSecrets(PERSISTED_SECRET_KEYS, file)[key]
  {
    if starts != [] {
      var rest, last := starts[..|starts| - 1], starts[|starts| - 1];
      assert last in starts && forall start :: start in rest ==> start in starts;
      SecretsAreStable(file, rest, key);
      ManagedIsGood(last);
      var keys, managed := PERSISTED_SECRET_KEYS, ManagedKeys(last.tokenEnabled);
      FileAfterBoot(keys, managed, last.env, FileAfter(file, rest), last.secretFor);
      QuietBootIff(keys, managed, last.env, FileAfter(file, rest), last.secretFor);
      EnvironmentAfterBoot(keys, managed, last.env, FileAfter(file, rest), last.secretFor, key);
      FilledIs(last.env, ReadSecrets(keys, FileAfter(file, rest)), managed, last.secretFor, key);
    }
  }

  /** With the setup token disabled a boot neither generates nor persists one. */
  lemma TokenOnlyWhenEnabled(start: Start, file: Option<string>)
    requires !start.tokenEnabled && forall key :: Storable(start.secretFor(key))
    ensures var outcome := Booted(PERSISTED_SECRET_KEYS, ManagedKeys(false), start.env, file, start.secretFor);
      && SETUP_TOKEN !in outcome.generated
      && (SETUP_TOKEN in ReadSecrets(PERSISTED_SECRET_KEYS, outcome.file) <==> SETUP_TOKEN in ReadSecrets(PERSISTED_SECRET_KEYS, file))
      && (SETUP_TOKEN in outcome.env <==> SETUP_TOKEN in start.env)
  {
    ManagedIsGood(start);
    assert SETUP_TOKEN[0] != BETTER_AUTH_SECRET[0];
    assert SETUP_TOKEN !in ManagedKeys(false);
    EnvironmentAfterBoot(PERSISTED_SECRET_KEYS, ManagedKeys(false), start.env, file, start.secretFor, SETUP_TOKEN);
    FileAfterBoot(PERSISTED_SECRET_KEYS, ManagedKeys(false), start.env, file, start.secretFor);
  }
}
