/** The query parameters of a request URL.
    A query is Go's `url.Values`: every key maps to the list of its values.
    `GetStepOutput` starts from the query of the parsed route URL and writes the
    view and step names and one key per environment override into it. */
module Query {
  import opened Domain

  /** A decoded query string: each key with the list of its values. */
  type Values = map<string, seq<string>>

  /** A parsed URL: everything up to the query, and the decoded query. */
  datatype Url = Url(location: string, query: Values)

  const ViewNameKey: string := "view_name"
  const StepNameKey: string := "step_name"
  const ViewEnvPrefix: string := "view_env"
  const StepEnvPrefix: string := "step_env"

  /** `url.Values.Set`: the key afterwards holds exactly `[v]`, whatever it held
      before; every other key is untouched. */
  function Set(q: Values, key: string, v: string): (r: Values)
    ensures r.Keys == q.Keys + {key}
    ensures r[key] == [v]
    ensures forall k :: k in q && k != key ==> r[k] == q[k]
  {
    q[key := [v]]
  }

  /** The keys the overrides of one scope write: the prefix glued to each name. */
  function OverrideKeys(prefix: string, env: seq<EnvOverride>): set<string>
  {
    set i | 0 <= i < |env| :: prefix + env[i].name
  }

  /** The query after `Set(prefix + e.name, e.value)` for every entry `e` of `env`,
      in sequence order. */
  function ApplyOverrides(q: Values, prefix: string, env: seq<EnvOverride>): (r: Values)
    ensures r.Keys == q.Keys + OverrideKeys(prefix, env)
    decreases |env|
  {
    if env == [] then q
    else
      var init, last := env[..|env| - 1], env[|env| - 1];
      assert OverrideKeys(prefix, env) == OverrideKeys(prefix, init) + {prefix + last.name} by {
        forall k | k in OverrideKeys(prefix, env)
          ensures k in OverrideKeys(prefix, init) + {prefix + last.name}
        {
          var i :| 0 <= i < |env| && k == prefix + env[i].name;
          if i < |env| - 1 { assert init[i] == env[i]; }
        }
      }
      Set(ApplyOverrides(q, prefix, init), prefix + last.name, last.value)
  }

  /** Every key `GetStepOutput` writes into the query. */
  function WrittenKeys(req: GetStepOutputRequest): set<string>
  {
    {ViewNameKey, StepNameKey}
      + OverrideKeys(ViewEnvPrefix, req.viewEnv)
      + OverrideKeys(StepEnvPrefix, req.stepEnv)
  }

  /** The query `GetStepOutput` sends, given the query `base` already in the
      parsed route URL: the two names first, then the view overrides, then the
      step overrides, each written with `Set`. */
  function StepOutputQuery(base: Values, req: GetStepOutputRequest): (r: Values)
    ensures r.Keys == base.Keys + WrittenKeys(req)
  {
    var named := Set(Set(base, ViewNameKey, req.viewName), StepNameKey, req.stepName);
    ApplyOverrides(ApplyOverrides(named, ViewEnvPrefix, req.viewEnv), StepEnvPrefix, req.stepEnv)
  }

  /** The query construction of `GetStepOutput`: the map is updated in place by
      `Set`, once per name and once per override, in two loops. */
  method EncodeStepOutputQuery(base: Values, req: GetStepOutputRequest) returns (q: Values)
    ensures q == StepOutputQuery(base, req)
  {
    q := base;
    q := Set(q, ViewNameKey, req.viewName);
    q := Set(q, StepNameKey, req.stepName);
    ghost var named := q;
    var i := 0;
    while i < |req.viewEnv|
      invariant 0 <= i <= |req.viewEnv|
      invariant q == ApplyOverrides(named, ViewEnvPrefix, req.viewEnv[..i])
    {
      ApplyOverridesStep(named, ViewEnvPrefix, req.viewEnv, i);
      q := Set(q, ViewEnvPrefix + req.viewEnv[i].name, req.viewEnv[i].value);
      i := i + 1;
    }
    assert req.viewEnv[..i] == req.viewEnv;
    ghost var viewed := q;
    var j := 0;
    while j < |req.stepEnv|
      invariant 0 <= j <= |req.stepEnv|
      invariant q == ApplyOverrides(viewed, StepEnvPrefix, req.stepEnv[..j])
    {
      ApplyOverridesStep(viewed, StepEnvPrefix, req.stepEnv, j);
      q := Set(q, StepEnvPrefix + req.stepEnv[j].name, req.stepEnv[j].value);
      j := j + 1;
    }
    assert req.stepEnv[..j] == req.stepEnv;
  }

  /** One more entry of the loop: extending the processed prefix by entry `i` is one
      more `Set`. */
  lemma ApplyOverridesStep(q: Values, prefix: string, env: seq<EnvOverride>, i: nat)
    requires i < |env|
    ensures ApplyOverrides(q, prefix, env[..i + 1])
         == Set(ApplyOverrides(q, prefix, env[..i]), prefix + env[i].name, env[i].value)
  {
    assert env[..i + 1][..i] == env[..i];
  }

  // ---------------------------------------------------------------------------
  // Keys of different kinds never coincide.

  /** Gluing the same prefix to two names gives the same key only for the same name. */
  lemma PrefixedKeyInjective(prefix: string, n: string, m: string)
    requires prefix + n == prefix + m
    ensures n == m
  {
    assert n == (prefix + n)[|prefix|..];
    assert m == (prefix + m)[|prefix|..];
  }

  /** No override key is one of the two name keys, and a view override key is never
      a step override key. */
  lemma PrefixedKeysDistinct(n: string, m: string)
    ensures ViewEnvPrefix + n != ViewNameKey && ViewEnvPrefix + n != StepNameKey
    ensures StepEnvPrefix + n != ViewNameKey && StepEnvPrefix + n != StepNameKey
    ensures ViewEnvPrefix + n != StepEnvPrefix + m
  {
    assert (ViewEnvPrefix + n)[0] == 'v' && (ViewEnvPrefix + n)[5] == 'e';
    assert (StepEnvPrefix + n)[0] == 's' && (StepEnvPrefix + n)[5] == 'e';
    assert (StepEnvPrefix + m)[0] == 's';
    assert ViewNameKey[5] == 'n' && StepNameKey[0] == 's' && StepNameKey[5] == 'n';
  }

  // ---------------------------------------------------------------------------
  // What ApplyOverrides leaves at each key.

  /** Last write wins: the key of the last entry with a given name holds exactly that
      entry's value. */
  lemma {:induction false} ApplyOverridesLastWins(q: Values, prefix: string, env: seq<EnvOverride>, i: nat)
    requires i < |env|
    requires forall j :: i < j < |env| ==> env[j].name != env[i].name
    ensures prefix + env[i].name in ApplyOverrides(q, prefix, env)
    ensures ApplyOverrides(q, prefix, env)[prefix + env[i].name] == [env[i].value]
  {
    var init, last := env[..|env| - 1], env[|env| - 1];
    if i < |env| - 1 {
      assert last.name != env[i].name;
      if prefix + last.name == prefix + env[i].name {
        PrefixedKeyInjective(prefix, last.name, env[i].name);
      }
      assert init[i] == env[i];
      ApplyOverridesLastWins(q, prefix, init, i);
    }
  }

  /** A key that no entry writes keeps what it had, and is present exactly when it was. */
  lemma {:induction false} ApplyOverridesElsewhere(q: Values, prefix: string, env: seq<EnvOverride>, k: string)
    requires k !in OverrideKeys(prefix, env)
    ensures k in ApplyOverrides(q, prefix, env) <==> k in q
    ensures k in q ==> ApplyOverrides(q, prefix, env)[k] == q[k]
  {
    if env != [] {
      var init := env[..|env| - 1];
      assert k != prefix + env[|env| - 1].name;
      assert OverrideKeys(prefix, init) <= OverrideKeys(prefix, env) by {
        forall i | 0 <= i < |init| ensures init[i] == env[i] { }
      }
      ApplyOverridesElsewhere(q, prefix, init, k);
    }
  }

  /** The index of the last entry that shares the name of entry `i`. */
  ghost function LastWithName(env: seq<EnvOverride>, i: nat): (r: nat)
    requires i < |env|
    ensures i <= r < |env| && env[r].name == env[i].name
    ensures forall j :: r < j < |env| ==> env[j].name != env[i].name
    decreases |env| - i
  {
    if exists j :: i < j < |env| && env[j].name == env[i].name then
      var j :| i < j < |env| && env[j].name == env[i].name;
      LastWithName(env, j)
    else i
  }

  // ---------------------------------------------------------------------------
  // Properties of the query GetStepOutput sends.

  /** `view_name` and `step_name` hold exactly the request's names: no override
      key can overwrite them. */
  lemma NamesAreExact(base: Values, req: GetStepOutputRequest)
    ensures ViewNameKey in StepOutputQuery(base, req) && StepOutputQuery(base, req)[ViewNameKey] == [req.viewName]
    ensures StepNameKey in StepOutputQuery(base, req) && StepOutputQuery(base, req)[StepNameKey] == [req.stepName]
  {
    var named := Set(Set(base, ViewNameKey, req.viewName), StepNameKey, req.stepName);
    var viewed := ApplyOverrides(named, ViewEnvPrefix, req.viewEnv);
    forall i | 0 <= i < |req.viewEnv|
      ensures ViewEnvPrefix + req.viewEnv[i].name != ViewNameKey
      ensures ViewEnvPrefix + req.viewEnv[i].name != StepNameKey
    {
      PrefixedKeysDistinct(req.viewEnv[i].name, "");
    }
    forall i | 0 <= i < |req.stepEnv|
      ensures StepEnvPrefix + req.stepEnv[i].name != ViewNameKey
      ensures StepEnvPrefix + req.stepEnv[i].name != StepNameKey
    {
      PrefixedKeysDistinct(req.stepEnv[i].name, "");
    }
    ApplyOverridesElsewhere(named, ViewEnvPrefix, req.viewEnv, ViewNameKey);
    ApplyOverridesElsewhere(viewed, StepEnvPrefix, req.stepEnv, ViewNameKey);
    ApplyOverridesElsewhere(named, ViewEnvPrefix, req.viewEnv, StepNameKey);
    ApplyOverridesElsewhere(viewed, StepEnvPrefix, req.stepEnv, StepNameKey);
  }

  /** Every view override is sent under `view_env` + its name, and when several share
      a name the key holds the value of the last of them. */
  lemma ViewEnvLastWins(base: Values, req: GetStepOutputRequest, i: nat)
    requires i < |req.viewEnv|
    requires forall j :: i < j < |req.viewEnv| ==> req.viewEnv[j].name != req.viewEnv[i].name
    ensures ViewEnvPrefix + req.viewEnv[i].name in StepOutputQuery(base, req)
    ensures StepOutputQuery(base, req)[ViewEnvPrefix + req.viewEnv[i].name] == [req.viewEnv[i].value]
  {
    var named := Set(Set(base, ViewNameKey, req.viewName), StepNameKey, req.stepName);
    var viewed := ApplyOverrides(named, ViewEnvPrefix, req.viewEnv);
    var k := ViewEnvPrefix + req.viewEnv[i].name;
    ApplyOverridesLastWins(named, ViewEnvPrefix, req.viewEnv, i);
    forall j | 0 <= j < |req.stepEnv| ensures k != StepEnvPrefix + req.stepEnv[j].name {
      PrefixedKeysDistinct(req.viewEnv[i].name, req.stepEnv[j].name);
    }
    ApplyOverridesElsewhere(viewed, StepEnvPrefix, req.stepEnv, k);
  }

  /** Every step override is sent under `step_env` + its name, and when several share
      a name the key holds the value of the last of them. */
  lemma StepEnvLastWins(base: Values, req: GetStepOutputRequest, i: nat)
    requires i < |req.stepEnv|
    requires forall j :: i < j < |req.stepEnv| ==> req.stepEnv[j].name != req.stepEnv[i].name
    ensures StepEnvPrefix + req.stepEnv[i].name in StepOutputQuery(base, req)
    ensures StepOutputQuery(base, req)[StepEnvPrefix + req.stepEnv[i].name] == [req.stepEnv[i].value]
  {
    var named := Set(Set(base, ViewNameKey, req.viewName), StepNameKey, req.stepName);
    var viewed := ApplyOverrides(named, ViewEnvPrefix, req.viewEnv);
    ApplyOverridesLastWins(viewed, StepEnvPrefix, req.stepEnv, i);
  }

  /** A view override and a step override with the same name are sent under two
      different keys, each with its own value. */
  lemma ScopesDoNotCollide(base: Values, req: GetStepOutputRequest, i: nat, j: nat)
    requires i < |req.viewEnv| && j < |req.stepEnv|
    requires req.viewEnv[i].name == req.stepEnv[j].name
    requires forall k :: i < k < |req.viewEnv| ==> req.viewEnv[k].name != req.viewEnv[i].name
    requires forall k :: j < k < |req.stepEnv| ==> req.stepEnv[k].name != req.stepEnv[j].name
    ensures ViewEnvPrefix + req.viewEnv[i].name != StepEnvPrefix + req.stepEnv[j].name
    ensures StepOutputQuery(base, req)[ViewEnvPrefix + req.viewEnv[i].name] == [req.viewEnv[i].value]
    ensures StepOutputQuery(base, req)[StepEnvPrefix + req.stepEnv[j].name] == [req.stepEnv[j].value]
  {
    PrefixedKeysDistinct(req.viewEnv[i].name, req.stepEnv[j].name);
    ViewEnvLastWins(base, req, i);
    StepEnvLastWins(base, req, j);
  }

  /** `Set` replaces rather than appends: every key the request writes holds
      exactly one value. */
  lemma WrittenKeysSingleValued(base: Values, req: GetStepOutputRequest, k: string)
    requires k in WrittenKeys(req)
    ensures k in StepOutputQuery(base, req) && |StepOutputQuery(base, req)[k]| == 1
  {
    NamesAreExact(base, req);
    if k in OverrideKeys(StepEnvPrefix, req.stepEnv) {
      var i :| 0 <= i < |req.stepEnv| && k == StepEnvPrefix + req.stepEnv[i].name;
      StepEnvLastWins(base, req, LastWithName(req.stepEnv, i));
    } else if k in OverrideKeys(ViewEnvPrefix, req.viewEnv) {
      var i :| 0 <= i < |req.viewEnv| && k == ViewEnvPrefix + req.viewEnv[i].name;
      ViewEnvLastWins(base, req, LastWithName(req.viewEnv, i));
    }
  }

  /** Nothing else changes: a key of the route URL's own query that the request does
      not write keeps its values, and no key appears that neither was there nor was
      written. */
  lemma UnwrittenKeysUnchanged(base: Values, req: GetStepOutputRequest, k: string)
    requires k !in WrittenKeys(req)
    ensures k in StepOutputQuery(base, req) <==> k in base
    ensures k in base ==> StepOutputQuery(base, req)[k] == base[k]
  {
    var named := Set(Set(base, ViewNameKey, req.viewName), StepNameKey, req.stepName);
    var viewed := ApplyOverrides(named, ViewEnvPrefix, req.viewEnv);
    ApplyOverridesElsewhere(named, ViewEnvPrefix, req.viewEnv, k);
    ApplyOverridesElsewhere(viewed, StepEnvPrefix, req.stepEnv, k);
  }

  /** A worked instance: view `build`, step `compile`, one view override
      `BRANCH=main` and no step overrides, against a route URL without a query,
      give exactly three parameters. */
  lemma BuildCompileExample()
    ensures StepOutputQuery(map[], GetStepOutputRequest("build", "compile", [EnvOverride("BRANCH", "main")], []))
         == map["view_name" := ["build"], "step_name" := ["compile"], "view_envBRANCH" := ["main"]]
  {
    var env := [EnvOverride("BRANCH", "main")];
    var req := GetStepOutputRequest("build", "compile", env, []);
    var named := Set(Set(map[], ViewNameKey, "build"), StepNameKey, "compile");
    assert env[..0] == [];
    assert ViewEnvPrefix + "BRANCH" == "view_envBRANCH";
    assert ApplyOverrides(named, ViewEnvPrefix, env) == named["view_envBRANCH" := ["main"]];
  }
}
