/** Layered configuration and the process-wide settings object
    (src/backend/vlm_feedback_loop/config.py).

    Process environment over .env file over config.yaml over defaults.  The world outside the
    module (environment, files) is a value that may be different at every call. */
module LayeredSettings {
  import opened Basics

  type Path = string

  /** A setting as read (text) or as parsed (data). */
  datatype Value = Text(text: string) | Data(repr: string)

  /** The settings model: its fields, each with its default unless it is required, which of
      them are lists or dictionaries, JSON parsing, and the validation of one field. */
  datatype Model = Model(fields: map<string, Option<Value>>, complex: set<string>,
                         parse: string -> Option<Value>, validate: (string, Value) -> Option<Value>)

  /** What lies outside the process: config.yaml (missing, or a mapping; any other content
      counts as an empty one), the environment, and the .env files. */
  datatype World = World(yaml: Option<map<string, Value>>, environ: map<string, string>,
                         dotenvs: map<Path, map<string, Option<string>>>)

  const ENV_FILE_VARIABLE := "VLM_FEEDBACK_LOOP_ENV_FILE"
  const DEFAULT_ENV_FILE: Path := "~/.vlm_feedback_loop/.env"

  // ----- Which .env file -----

  function Override(w: World): Option<Path> {
    if ENV_FILE_VARIABLE in w.environ && w.environ[ENV_FILE_VARIABLE] != ""
    then Some(w.environ[ENV_FILE_VARIABLE]) else None
  }

  predicate Given(cli: Option<Path>) { cli.Some? && cli.value != "" }

  /** `_resolve_env_file_path`: the file to read, if any. */
  function ResolveEnvFile(w: World, cli: Option<Path>): Option<Path> {
    if Given(cli) then cli
    else if Override(w).Some? then Override(w)
    else if DEFAULT_ENV_FILE in w.dotenvs then Some(DEFAULT_ENV_FILE)
    else None
  }

  /** The target of persisted writes that a load records. */
  function WriteTarget(w: World, cli: Option<Path>): Path {
    if Given(cli) then cli.value
    else if Override(w).Some? then Override(w).value
    else DEFAULT_ENV_FILE
  }

  function FileRead(w: World, cli: Option<Path>): Option<Path> {
    var p := ResolveEnvFile(w, cli);
    if p.Some? && p.value in w.dotenvs then p else None
  }

  // ----- Precedence -----

  function Dotenv(w: World, cli: Option<Path>): map<string, Option<string>> {
    match FileRead(w, cli)
    case None => map[]
    case Some(p) => w.dotenvs[p]
  }

  /** The value of a key from the highest source that defines it; only known keys count in the
      environment and in the .env file. */
  function SourceOf(model: Model, w: World, yaml: map<string, Value>, cli: Option<Path>, key: string): Option<Value> {
    var dotenv := Dotenv(w, cli);
    if key in model.fields && key in w.environ then Some(Text(w.environ[key]))
    else if key in model.fields && key in dotenv && dotenv[key].Some? then Some(Text(dotenv[key].value))
    else if key in yaml then Some(yaml[key])
    else None
  }

  function Coerced(model: Model, key: string, v: Value): Value {
    if v.Text? && key in model.complex && model.parse(v.text).Some? then model.parse(v.text).value else v
  }

  /** What validation makes of a field: its default, if it has one, when no source defines it. */
  function Field(model: Model, w: World, yaml: map<string, Value>, cli: Option<Path>, key: string): Option<Value>
    requires key in model.fields
  {
    match SourceOf(model, w, yaml, cli, key)
    case None => model.fields[key]
    case Some(v) => model.validate(key, Coerced(model, key, v))
  }

  datatype Loaded = Values(values: map<string, Value>) | NoConfigFile | Invalid

  function Load(model: Model, w: World, cli: Option<Path>): Loaded {
    if w.yaml.None? then NoConfigFile else
    var yaml := w.yaml.value;
    if exists k | k in yaml :: k !in model.fields then Invalid
    else if exists k | k in model.fields :: Field(model, w, yaml, cli, k).None? then Invalid
    else Values(map k | k in model.fields :: Field(model, w, yaml, cli, k).value)
  }

  /** Unknown keys of the environment and the .env file, and .env keys without a value, have no
      effect; unknown keys of config.yaml are refused. */
  lemma OnlyKnownKeysMatter(model: Model, w: World, v: World, cli: Option<Path>)
    requires w.yaml == v.yaml
    requires forall k :: k in model.fields ==> (k in w.environ <==> k in v.environ)
    requires forall k :: k in model.fields && k in w.environ ==> w.environ[k] == v.environ[k]
    requires forall k :: k in model.fields ==>
               (k in Dotenv(w, cli) && Dotenv(w, cli)[k].Some? <==> k in Dotenv(v, cli) && Dotenv(v, cli)[k].Some?)
    requires forall k :: k in model.fields && k in Dotenv(w, cli) && Dotenv(w, cli)[k].Some? ==>
               Dotenv(w, cli)[k] == Dotenv(v, cli)[k]
    ensures Load(model, w, cli) == Load(model, v, cli)
    ensures w.yaml.Some? && (exists k :: k in w.yaml.value && k !in model.fields) ==> Load(model, w, cli).Invalid?
  {
    if w.yaml.Some? {
      var yaml := w.yaml.value;
      hide Dotenv, Coerced;
      forall k | k in model.fields
        ensures Field(model, w, yaml, cli, k) == Field(model, v, yaml, cli, k)
      {
        assert SourceOf(model, w, yaml, cli, k) == SourceOf(model, v, yaml, cli, k);
      }
    }
  }

  /** A bad value in a lower source does no harm under a good one in a higher: config.yaml
      matters only for the keys that neither environment nor .env file define. */
  lemma MaskedYamlIsHarmless(model: Model, w: World, cli: Option<Path>, key: string, v: Value)
    requires w.yaml.Some? && key in w.yaml.value && key in model.fields
    requires key in w.environ || (key in Dotenv(w, cli) && Dotenv(w, cli)[key].Some?)
    ensures Load(model, w.(yaml := Some(w.yaml.value[key := v])), cli) == Load(model, w, cli)
  {
    var yaml, other := w.yaml.value, w.yaml.value[key := v];
    var u := w.(yaml := Some(other));
    assert FileRead(u, cli) == FileRead(w, cli);
    assert Dotenv(u, cli) == Dotenv(w, cli);
    assert other.Keys == yaml.Keys;
    hide Dotenv, Coerced;
    forall k | k in model.fields
      ensures Field(model, u, other, cli, k) == Field(model, w, yaml, cli, k)
    {
      assert SourceOf(model, u, other, cli, k) == SourceOf(model, w, yaml, cli, k);
    }
  }

  /** Nor does anything in a .env file under a key of the environment. */
  lemma MaskedDotenvIsHarmless(model: Model, w: World, cli: Option<Path>, file: Path, key: string, v: Option<string>)
    requires file in w.dotenvs && key in w.environ
    ensures Load(model, w.(dotenvs := w.dotenvs[file := w.dotenvs[file][key := v]]), cli) == Load(model, w, cli)
  {
    var u := w.(dotenvs := w.dotenvs[file := w.dotenvs[file][key := v]]);
    assert FileRead(u, cli) == FileRead(w, cli);
    if w.yaml.Some? {
      var yaml := w.yaml.value;
      forall k | k in model.fields ensures Field(model, u, yaml, cli, k) == Field(model, w, yaml, cli, k) {
        assert k != key ==> (k in Dotenv(u, cli) <==> k in Dotenv(w, cli));
        assert SourceOf(model, u, yaml, cli, k) == SourceOf(model, w, yaml, cli, k);
      }
    }
  }

  // ----- Precedence, read off the loaded values -----

  /** The target of persisted writes: the command line, then the override variable, then the
      default, an empty text counting as absent. */
  lemma WriteTargetIs(w: World, cli: Option<Path>)
    ensures cli.Some? && cli.value != "" ==> WriteTarget(w, cli) == cli.value
    ensures cli == None || cli == Some("") ==>
              WriteTarget(w, cli) == if "VLM_FEEDBACK_LOOP_ENV_FILE" in w.environ && w.environ["VLM_FEEDBACK_LOOP_ENV_FILE"] != ""
                                     then w.environ["VLM_FEEDBACK_LOOP_ENV_FILE"] else "~/.vlm_feedback_loop/.env"
  {}

  /** The loaded value is what validation makes of v, parsed first if v is text for a list or
      dictionary field and does parse. */
  ghost predicate Makes(model: Model, key: string, v: Value, loaded: Value) {
    && (v.Data? || key !in model.complex || model.parse(v.text) == None ==> model.validate(key, v) == Some(loaded))
    && (v.Text? && key in model.complex && model.parse(v.text).Some? ==>
          model.validate(key, model.parse(v.text).value) == Some(loaded))
  }

  /** Environment before .env file before config.yaml before defaults, for every field. */
  ghost predicate InOrder(model: Model, environ: map<string, string>, dotenv: map<string, Option<string>>,
                          yaml: map<string, Value>, values: map<string, Value>) {
    values.Keys == model.fields.Keys &&
    forall k :: k in model.fields ==>
      var filed := k in dotenv && dotenv[k].Some?;
      && (k in environ ==> Makes(model, k, Text(environ[k]), values[k]))
      && (k !in environ && filed ==> Makes(model, k, Text(dotenv[k].value), values[k]))
      && (k !in environ && !filed && k in yaml ==> Makes(model, k, yaml[k], values[k]))
      && (k !in environ && !filed && k !in yaml ==> model.fields[k] == Some(values[k]))
  }

  /** The .env file that counts: the write target, empty if it does not exist. */
  function TargetContent(w: World, cli: Option<Path>): map<string, Option<string>> {
    if WriteTarget(w, cli) in w.dotenvs then w.dotenvs[WriteTarget(w, cli)] else map[]
  }

  lemma DotenvIsTarget(w: World, cli: Option<Path>)
    ensures Dotenv(w, cli) == TargetContent(w, cli)
  {}

  /** A load succeeds exactly when config.yaml is there with known keys only and the fields can
      be given values in order of precedence; those are the values loaded. */
  lemma LoadsInOrder(model: Model, w: World, cli: Option<Path>)
    ensures Load(model, w, cli).Values? <==>
              && w.yaml.Some? && w.yaml.value.Keys <= model.fields.Keys
              && exists values :: InOrder(model, w.environ, TargetContent(w, cli), w.yaml.value, values)
    ensures Load(model, w, cli).Values? ==>
              InOrder(model, w.environ, TargetContent(w, cli), w.yaml.value, Load(model, w, cli).values)
  {
    hide FileRead, Makes, Dotenv, TargetContent;
    DotenvIsTarget(w, cli);
    if w.yaml.Some? {
      var yaml := w.yaml.value;
      if Load(model, w, cli).Values? {
        var values := Load(model, w, cli).values;
        forall k | k in model.fields { FieldInOrder(model, w, cli, k, values[k]); }
        assert InOrder(model, w.environ, TargetContent(w, cli), yaml, values);
      }
      if yaml.Keys <= model.fields.Keys && exists values :: InOrder(model, w.environ, TargetContent(w, cli), yaml, values) {
        var values :| InOrder(model, w.environ, TargetContent(w, cli), yaml, values);
        forall k | k in model.fields ensures Field(model, w, yaml, cli, k).Some? {
          FieldInOrder(model, w, cli, k, values[k]);
        }
      }
    }
  }

  lemma FieldInOrder(model: Model, w: World, cli: Option<Path>, k: string, loaded: Value)
    requires w.yaml.Some? && k in model.fields
    ensures var dotenv, yaml := Dotenv(w, cli), w.yaml.value;
            var filed := k in dotenv && dotenv[k].Some?;
            Field(model, w, yaml, cli, k) == Some(loaded) <==>
              && (k in w.environ ==> Makes(model, k, Text(w.environ[k]), loaded))
              && (k !in w.environ && filed ==> Makes(model, k, Text(dotenv[k].value), loaded))
              && (k !in w.environ && !filed && k in yaml ==> Makes(model, k, yaml[k], loaded))
              && (k !in w.environ && !filed && k !in yaml ==> model.fields[k] == Some(loaded))
  {
    hide Dotenv;
  }

  /** Merge the layers into one dictionary, lowest first. */
  method Merge(model: Model, w: World, yaml: map<string, Value>, cli: Option<Path>) returns (merged: map<string, Value>)
    ensures forall k :: k in merged <==> SourceOf(model, w, yaml, cli, k).Some?
    ensures forall k :: k in merged ==> merged[k] == Coerced(model, k, SourceOf(model, w, yaml, cli, k).value)
  {
    merged := OverlayDotenv(model, yaml, Dotenv(w, cli));
    merged := OverlayEnviron(model, merged, w.environ);
    merged := Coerce(model, merged);
  }

  method OverlayDotenv(model: Model, yaml: map<string, Value>, dotenv: map<string, Option<string>>)
    returns (merged: map<string, Value>)
    ensures forall k :: k in merged <==> k in yaml || (k in dotenv && dotenv[k].Some? && k in model.fields)
    ensures forall k :: k in merged ==>
              merged[k] == if k in dotenv && dotenv[k].Some? && k in model.fields then Text(dotenv[k].value) else yaml[k]
  {
    merged := yaml;
    var rest := dotenv.Keys;
    while rest != {}
      invariant rest <= dotenv.Keys
      invariant forall k :: k in merged <==>
                  k in yaml || (k in dotenv && k !in rest && dotenv[k].Some? && k in model.fields)
      invariant forall k :: k in merged ==>
                  merged[k] == if k in dotenv && k !in rest && dotenv[k].Some? && k in model.fields
                               then Text(dotenv[k].value) else yaml[k]
      decreases rest
    {
      var k :| k in rest;
      if dotenv[k].Some? && k in model.fields {
        merged := merged[k := Text(dotenv[k].value)];
      }
      rest := rest - {k};
    }
  }

  method OverlayEnviron(model: Model, lower: map<string, Value>, environ: map<string, string>)
    returns (merged: map<string, Value>)
    ensures forall k :: k in merged <==> k in lower || (k in model.fields && k in environ)
    ensures forall k :: k in merged ==>
              merged[k] == if k in model.fields && k in environ then Text(environ[k]) else lower[k]
  {
    merged := lower;
    var rest := model.fields.Keys;
    while rest != {}
      invariant rest <= model.fields.Keys
      invariant forall k :: k in merged <==> k in lower || (k in model.fields && k !in rest && k in environ)
      invariant forall k :: k in merged ==>
                  merged[k] == if k in model.fields && k !in rest && k in environ then Text(environ[k]) else lower[k]
      decreases rest
    {
      var k :| k in rest;
      if k in environ {
        merged := merged[k := Text(environ[k])];
      }
      rest := rest - {k};
    }
  }

  /** `_coerce_string_values`. */
  method Coerce(model: Model, merged: map<string, Value>) returns (out: map<string, Value>)
    ensures out.Keys == merged.Keys
    ensures forall k :: k in out ==> out[k] == Coerced(model, k, merged[k])
  {
    out := merged;
    var rest := merged.Keys;
    while rest != {}
      invariant rest <= merged.Keys && out.Keys == merged.Keys
      invariant forall k :: k in out ==> out[k] == if k in rest then merged[k] else Coerced(model, k, merged[k])
      decreases rest
    {
      var k :| k in rest;
      out := out[k := Coerced(model, k, out[k])];
      rest := rest - {k};
    }
  }

  // ----- The module state -----

  /** A settings object; the number is its identity. */
  datatype Settings = Settings(id: nat, values: map<string, Value>)

  class ConfigModule {
    const model: Model
    var activeEnvFile: Option<Path>
    var overriding: Option<Settings>
    var cached: Option<Settings>
    var nextId: nat
    ghost var servedTarget: Path  // the write target of the load that made the object in service

    constructor (model: Model)
      ensures this.model == model && Serving() == None && Valid()
    {
      this.model, this.activeEnvFile, this.overriding, this.cached, this.nextId := model, None, None, None, 0;
      this.servedTarget := "";
    }

    /** The object that `get_settings` returns without loading. */
    function Serving(): Option<Settings>
      reads this
    {
      if overriding.Some? then overriding else cached
    }

    ghost predicate Valid()
      reads this
    {
      && (overriding.Some? ==> cached.None?)
      && (Serving().Some? ==> activeEnvFile.Some? && Serving().value.id < nextId)
    }

    /** Settings are in service, and persisted writes go to the file they were loaded for. */
    ghost predicate Agrees()
      reads this
    {
      Serving().Some? && activeEnvFile == Some(servedTarget)
    }

    /** `get_canonical_env_file_path`. */
    function CanonicalEnvFile(w: World): Path
      reads this
    {
      if activeEnvFile.Some? then activeEnvFile.value
      else if Override(w).Some? then Override(w).value
      else DEFAULT_ENV_FILE
    }

    /** Persisted writes go where the last load that found config.yaml said, and before any load
        where one without a command line would. */
    lemma CanonicalIs(w: World)
      ensures CanonicalEnvFile(w) == if activeEnvFile.Some? then activeEnvFile.value else WriteTarget(w, None)
    {}

    /** `load_settings`: None when it exits.  The write target is recorded before validation, and
        the env file read is that target if it exists. */
    method LoadSettings(w: World, cli: Option<Path>) returns (r: Option<Settings>)
      modifies `activeEnvFile, `nextId
      ensures r.Some? <==> Load(model, w, cli).Values?
      ensures r.Some? ==> r.value == Settings(old(nextId), Load(model, w, cli).values) && nextId == old(nextId) + 1
      ensures r.None? ==> nextId == old(nextId)
      ensures r.Some? ==> w.yaml.Some? && InOrder(model, w.environ, TargetContent(w, cli), w.yaml.value, r.value.values)
      ensures r.Some? ==> w.yaml.Some? && forall k ::
                k in model.fields && SourceOf(model, w, w.yaml.value, cli, k).None? ==> model.fields[k].Some?
      ensures activeEnvFile == if w.yaml.None? then old(activeEnvFile) else Some(WriteTarget(w, cli))
      ensures w.yaml.Some? ==> FileRead(w, cli) == if activeEnvFile.value in w.dotenvs then activeEnvFile else None
    {
      hide SourceOf, Coerced, Field, Dotenv, InOrder, TargetContent;
      if w.yaml.None? { return None; }
      activeEnvFile := Some(WriteTarget(w, cli));
      var yaml := w.yaml.value;
      var merged := Merge(model, w, yaml, cli);
      MergedFields(w, yaml, cli, merged);
      var values := Construct(merged, yaml);
      if values.None? { return None; }
      LoadsInOrder(model, w, cli);
      r := Some(Settings(nextId, values.value));
      nextId := nextId + 1;
    }

    /** `Settings(**merged)`: unknown keys, values that fail validation and missing required
        fields are refused. */
    method Construct(merged: map<string, Value>, yaml: map<string, Value>) returns (values: Option<map<string, Value>>)
      requires yaml.Keys <= merged.Keys <= yaml.Keys + model.fields.Keys
      ensures values.Some? <==>
                && (forall k :: k in yaml ==> k in model.fields)
                && (forall k :: k in model.fields && k in merged ==> model.validate(k, merged[k]).Some?)
                && (forall k :: k in model.fields && k !in merged ==> model.fields[k].Some?)
      ensures values.Some? ==>
                && values.value.Keys == model.fields.Keys
                && forall k :: k in model.fields ==>
                     values.value[k] == if k in merged then model.validate(k, merged[k]).value else model.fields[k].value
    {
      if exists k | k in merged :: k !in model.fields { return None; }
      if exists k | k in merged :: model.validate(k, merged[k]).None? { return None; }
      if exists k | k in model.fields :: k !in merged && model.fields[k].None? { return None; }
      return Some(map k | k in model.fields ::
                    if k in merged then model.validate(k, merged[k]).value else model.fields[k].value);
    }

    lemma MergedFields(w: World, yaml: map<string, Value>, cli: Option<Path>, merged: map<string, Value>)
      requires forall k :: k in merged <==> SourceOf(model, w, yaml, cli, k).Some?
      requires forall k :: k in merged ==> merged[k] == Coerced(model, k, SourceOf(model, w, yaml, cli, k).value)
      ensures forall k :: k in model.fields ==>
                Field(model, w, yaml, cli, k)
                == if k in merged then model.validate(k, merged[k]) else model.fields[k]
      ensures yaml.Keys <= merged.Keys <= yaml.Keys + model.fields.Keys
    {
      hide Coerced, Dotenv;
    }

    /** `get_settings`: what is in service stays; otherwise a load, which leaves the write target
        in agreement with what it puts in service. */
    method GetSettings(w: World) returns (r: Option<Settings>)
      requires Valid()
      modifies this
      ensures Valid() && Serving() == r
      ensures old(Serving()).Some? ==>
                r == old(Serving()) && activeEnvFile == old(activeEnvFile) && servedTarget == old(servedTarget)
      ensures old(Serving()).None? ==> (r.Some? <==> Load(model, w, None).Values?)
      ensures old(Serving()).None? && r.Some? ==>
                Agrees() && servedTarget == WriteTarget(w, None) && r.value.values == Load(model, w, None).values
      ensures r.None? ==>
                activeEnvFile == if w.yaml.None? then old(activeEnvFile) else Some(WriteTarget(w, None))
    {
      if overriding.Some? { return overriding; }
      if cached.Some? { return cached; }
      r := LoadSettings(w, None);
      if r.Some? {
        cached, servedTarget := r, WriteTarget(w, None);
      }
    }

    /** `init_settings`: a load that fails exits before anything but the write target changes.
        Settings and write target part company exactly if config.yaml was there and the failed
        load was for another env file. */
    method InitSettings(w: World, cli: Option<Path>) returns (r: Option<Settings>)
      requires Valid()
      modifies this
      ensures Valid() && (r.Some? <==> Load(model, w, cli).Values?)
      ensures r.Some? ==> Serving() == r && r.value.values == Load(model, w, cli).values && r.value.id == old(nextId)
      ensures r.Some? ==> Agrees() && servedTarget == WriteTarget(w, cli)
      ensures r.None? ==> Serving() == old(Serving()) && servedTarget == old(servedTarget)
      ensures activeEnvFile == if w.yaml.None? then old(activeEnvFile) else Some(WriteTarget(w, cli))
      ensures r.None? && old(Agrees()) ==>
                (Agrees() <==> w.yaml.None? || WriteTarget(w, cli) == old(servedTarget))
    {
      r := LoadSettings(w, cli);
      if r.None? { return; }
      overriding, cached := r, None;
      servedTarget := WriteTarget(w, cli);
    }

    /** `reset_settings`. */
    method ResetSettings()
      requires Valid()
      modifies `overriding, `cached
      ensures Valid() && Serving() == None
    {
      overriding, cached := None, None;
    }

    /** However the world changes between them, gets with no init or reset in between return
        the same object, once one of them has returned. */
    method GetRepeatedly(worlds: seq<World>) returns (results: seq<Option<Settings>>)
      requires Valid()
      modifies this
      ensures Valid() && |results| == |worlds|
      ensures forall i, j :: 0 <= i < j < |results| && results[i].Some? ==> results[j] == results[i]
      ensures old(Serving()).Some? ==> forall i :: 0 <= i < |results| ==> results[i] == old(Serving())
    {
      results := [];
      for n := 0 to |worlds|
        invariant Valid() && |results| == n
        invariant forall i :: 0 <= i < n && results[i].Some? ==> Serving() == results[i]
        invariant forall i, j :: 0 <= i < j < n && results[i].Some? ==> results[j] == results[i]
        invariant old(Serving()).Some? ==>
                    Serving() == old(Serving()) && forall i :: 0 <= i < n ==> results[i] == old(Serving())
      {
        var r := GetSettings(worlds[n]);
        results := results + [r];
      }
    }

    /** A failed init leaves the old settings in service but moves the write target. */
    method FailedInitMovesWriteTarget(w: World, first: Path, second: Path) returns (served: Option<Settings>)
      requires Valid() && first != "" && second != "" && first != second
      requires Load(model, w, Some(first)).Values? && Load(model, w, Some(second)).Invalid?
      modifies this
      ensures served.Some? && Serving() == served && served.value.values == Load(model, w, Some(first)).values
      ensures CanonicalEnvFile(w) == second != servedTarget == first
    {
      served := InitSettings(w, Some(first));
      var failed := InitSettings(w, Some(second));
    }
  }
}
