/** The environment guard: which of the database settings are missing, and
    a snapshot of the settings with the secrets redacted. */
module EnvGuard {
  import opened Common

  const Required: seq<string> := ["NEXT_PUBLIC_SUPABASE_URL", "NEXT_PUBLIC_SUPABASE_ANON_KEY", "SUPABASE_SERVICE_ROLE_KEY"]

  datatype EnvReport = EnvReport(ok: bool, missing: seq<string>)

  /** The names of `names` whose variable is unset or empty, in order. */
  function Unset(env: Env, names: seq<string>): (missing: seq<string>)
    ensures |missing| <= |names|
    ensures forall k :: k in missing <==> k in names && !Truthy(EnvVar(env, k))
  {
    if names == [] then []
    else (if Truthy(EnvVar(env, names[0])) then [] else [names[0]]) + Unset(env, names[1..])
  }

  /** `missing` lists `names` in order, leaving some out. */
  predicate IsSubsequence(missing: seq<string>, names: seq<string>) {
    if missing == [] then true
    else if names == [] then false
    else if missing[0] == names[0] then IsSubsequence(missing[1..], names[1..])
    else IsSubsequence(missing, names[1..])
  }

  lemma {:induction false} UnsetIsSubsequence(env: Env, names: seq<string>)
    ensures IsSubsequence(Unset(env, names), names)
  {
    if names != [] {
      UnsetIsSubsequence(env, names[1..]);
      var rest := Unset(env, names[1..]);
      if !Truthy(EnvVar(env, names[0])) {
        assert Unset(env, names) == [names[0]] + rest;
        assert ([names[0]] + rest)[1..] == rest;
      } else if rest != [] {
        assert Unset(env, names) == [] + rest == rest;
        assert rest[0] in rest;
        assert rest[0] != names[0];
      }
    }
  }

  /** Over a list without repeats, the missing names have no repeats either. */
  lemma {:induction false} UnsetDistinct(env: Env, names: seq<string>)
    requires forall i, j :: 0 <= i < j < |names| ==> names[i] != names[j]
    ensures forall i, j :: 0 <= i < j < |Unset(env, names)| ==> Unset(env, names)[i] != Unset(env, names)[j]
  {
    if names != [] {
      UnsetDistinct(env, names[1..]);
      assert names[0] !in names[1..];
    }
  }

  /** The report: the required settings that are unset or empty, in the
      fixed order; ok exactly when none is. */
  function ValidateSupabaseEnv(env: Env): (r: EnvReport)
    ensures r.ok <==> r.missing == []
    ensures forall k :: k in r.missing <==> k in Required && !Truthy(EnvVar(env, k))
    ensures IsSubsequence(r.missing, Required)
    ensures forall i, j :: 0 <= i < j < |r.missing| ==> r.missing[i] != r.missing[j]
  {
    var missing := Unset(env, Required);
    UnsetIsSubsequence(env, Required);
    UnsetDistinct(env, Required);
    EnvReport(missing == [], missing)
  }

  /** A secret as it may be shown: nothing when unset or empty, else its
      first six characters and an ellipsis. */
  function Redact(v: Option<string>): (r: Option<string>)
    ensures r.None? <==> !Truthy(v)
    ensures r.Some? ==> 1 <= |r.value| <= 7 && r.value[|r.value| - 1] == '…'
    ensures r.Some? ==> var shown := r.value[..|r.value| - 1];
              |shown| == (if |v.value| < 6 then |v.value| else 6) && shown == v.value[..|shown|]
  {
    if Truthy(v) then Some(v.value[..if |v.value| < 6 then |v.value| else 6] + "…") else None
  }

  /** Redaction hides everything behind the sixth character: two secrets
      that share their first six characters look the same. */
  lemma RedactHidesTail(a: string, b: string)
    requires |a| >= 6 && |b| >= 6 && a[..6] == b[..6]
    ensures Redact(Some(a)) == Redact(Some(b))
  {
  }

  datatype Snapshot = Snapshot(url: Option<string>, anonKey: Option<string>, serviceRoleKey: Option<string>,
                               geminiModel: Option<string>)

  /** The snapshot: the address as it is, both keys redacted, and the model
      name unless it is empty. */
  function RedactedEnvSnapshot(env: Env): (s: Snapshot)
    ensures s.url == EnvVar(env, "NEXT_PUBLIC_SUPABASE_URL")
    ensures s.anonKey == Redact(EnvVar(env, "NEXT_PUBLIC_SUPABASE_ANON_KEY"))
    ensures s.serviceRoleKey == Redact(EnvVar(env, "SUPABASE_SERVICE_ROLE_KEY"))
    ensures s.geminiModel.None? <==> !Truthy(EnvVar(env, "GEMINI_MODEL"))
    ensures s.geminiModel.Some? ==> s.geminiModel.value == env["GEMINI_MODEL"]
  {
    Snapshot(
      EnvVar(env, "NEXT_PUBLIC_SUPABASE_URL"),
      Redact(EnvVar(env, "NEXT_PUBLIC_SUPABASE_ANON_KEY")),
      Redact(EnvVar(env, "SUPABASE_SERVICE_ROLE_KEY")),
      FirstTruthy([EnvVar(env, "GEMINI_MODEL")]))
  }
}
