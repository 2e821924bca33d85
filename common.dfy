/** Shared vocabulary of the EcoWell model: optional values, the JavaScript
    idioms `a || b` and `a ?? b` over optional fields, `parseInt`, the limit
    clamp of the query-string handlers, whitespace and trimming, and the
    "first row per key" reduction that both the wells and the chat routes
    apply to a timestamp-descending list of metric rows. */
module Common {

  datatype Option<T> = None | Some(value: T)

  /** The outcome of an operation that may throw. */
  datatype Result<T> = Ok(value: T) | Err(message: string)

  /** The process environment: a variable that is not set has no entry. */
  type Env = map<string, string>

  function EnvVar(env: Env, name: string): (v: Option<string>)
    ensures v.Some? <==> name in env
    ensures v.Some? ==> v.value == env[name]
  {
    if name in env then Some(env[name]) else None
  }

  // ---------------------------------------------------------------------------
  // `||` and `??` over optional fields

  /** A string field is "truthy" in JavaScript when it is present and non-empty. */
  predicate Truthy(s: Option<string>) {
    s.Some? && s.value != ""
  }

  /** `a || b || ... || undefined` over optional strings: the first truthy
      candidate, or absent when none is. */
  function FirstTruthy(candidates: seq<Option<string>>): (r: Option<string>)
    ensures r.Some? ==> r.value != "" && r in candidates
    ensures r.None? <==> forall i :: 0 <= i < |candidates| ==> !Truthy(candidates[i])
    ensures r.Some? ==> exists i :: 0 <= i < |candidates| && candidates[i] == r
                          && forall j :: 0 <= j < i ==> !Truthy(candidates[j])
  {
    if candidates == [] then None
    else if Truthy(candidates[0]) then candidates[0]
    else
      var r := FirstTruthy(candidates[1..]);
      assert forall i :: 1 <= i < |candidates| ==> candidates[i] == candidates[1..][i - 1];
      r
  }

  /** `s || d` for an optional string and a default. */
  function OrElse(s: Option<string>, d: string): (r: string)
    ensures Truthy(s) ==> r == s.value
    ensures !Truthy(s) ==> r == d
    ensures d != "" ==> r != ""
  {
    if Truthy(s) then s.value else d
  }

  /** `a ?? b ?? ... ?? null`: the first present candidate; unlike `||`,
      a present zero or empty value is kept. */
  function Coalesce<T>(candidates: seq<Option<T>>): (r: Option<T>)
    ensures r.None? <==> forall i :: 0 <= i < |candidates| ==> candidates[i].None?
    ensures r.Some? ==> exists i :: 0 <= i < |candidates| && candidates[i] == r
                          && forall j :: 0 <= j < i ==> candidates[j].None?
  {
    if candidates == [] then None
    else if candidates[0].Some? then candidates[0]
    else
      var r := Coalesce(candidates[1..]);
      assert forall i :: 1 <= i < |candidates| ==> candidates[i] == candidates[1..][i - 1];
      r
  }

  // ---------------------------------------------------------------------------
  // Lists of strings

  /** `Array.prototype.join`. */
  function Join(parts: seq<string>, sep: string): (r: string)
    ensures parts != [] && parts[0] != [] ==> r != []
    ensures parts == [] ==> r == []
  {
    if parts == [] then "" else if |parts| == 1 then parts[0] else parts[0] + sep + Join(parts[1..], sep)
  }

  /** Joining a first part onto the rest: the part alone when nothing
      follows, else the part, the separator and the join of the rest. */
  lemma JoinCons(first: string, rest: seq<string>, sep: string)
    ensures Join([first] + rest, sep) == if rest == [] then first else first + sep + Join(rest, sep)
  {
  }

  /** `xs.flatMap(f)`: the lists `f` gives for the elements, one after the
      other in the order of `xs`. */
  function FlatMap<T, U>(f: T -> seq<U>, xs: seq<T>): seq<U> {
    if xs == [] then [] else FlatMap(f, xs[..|xs| - 1]) + f(xs[|xs| - 1])
  }

  /** An element of the mapped list comes from the list of some element,
      and every element's list is in it. */
  lemma {:induction false} FlatMapMembers<T, U>(f: T -> seq<U>, xs: seq<T>)
    ensures forall y :: y in FlatMap(f, xs) ==> exists i :: 0 <= i < |xs| && y in f(xs[i])
    ensures forall i, y :: 0 <= i < |xs| && y in f(xs[i]) ==> y in FlatMap(f, xs)
  {
    if xs != [] {
      var init := xs[..|xs| - 1];
      FlatMapMembers(f, init);
      assert forall i :: 0 <= i < |init| ==> init[i] == xs[i];
    }
  }

  /** Mapping a concatenation is concatenating the mapped parts. */
  lemma {:induction false} FlatMapAppend<T, U>(f: T -> seq<U>, a: seq<T>, b: seq<T>)
    ensures FlatMap(f, a + b) == FlatMap(f, a) + FlatMap(f, b)
    decreases |b|
  {
    if b == [] {
      assert a + b == a;
    } else {
      assert (a + b)[..|a + b| - 1] == a + b[..|b| - 1];
      FlatMapAppend(f, a, b[..|b| - 1]);
    }
  }

  // ---------------------------------------------------------------------------
  // Whitespace (the JavaScript WhiteSpace and LineTerminator characters)

  predicate IsSpace(c: char) {
    c == ' ' || c == '\t' || c == '\n' || c == '\r' || c == '\U{000B}' || c == '\U{000C}'
    || c == '\U{00A0}' || c == '\U{1680}' || ('\U{2000}' <= c <= '\U{200A}')
    || c == '\U{2028}' || c == '\U{2029}' || c == '\U{202F}' || c == '\U{205F}'
    || c == '\U{3000}' || c == '\U{FEFF}'
  }

  /** `String.prototype.trimStart`. */
  function TrimStart(s: string): (r: string)
    ensures |r| <= |s| && r == s[|s| - |r|..]
    ensures r != [] ==> !IsSpace(r[0])
    ensures forall i :: 0 <= i < |s| - |r| ==> IsSpace(s[i])
  {
    if s != [] && IsSpace(s[0]) then TrimStart(s[1..]) else s
  }

  /** `String.prototype.trimEnd`. */
  function TrimEnd(s: string): (r: string)
    ensures |r| <= |s| && r == s[..|r|]
    ensures r != [] ==> !IsSpace(r[|r| - 1])
    ensures forall i :: |r| <= i < |s| ==> IsSpace(s[i])
  {
    if s != [] && IsSpace(s[|s| - 1]) then TrimEnd(s[..|s| - 1]) else s
  }

  /** `String.prototype.trim`: the slice of `s` that starts after its
      leading whitespace; `TrimDropsOnlySpace` shows that only whitespace
      follows it. */
  function Trim(s: string): (r: string)
    ensures r != [] ==> !IsSpace(r[0]) && !IsSpace(r[|r| - 1])
    ensures Leading(s) + |r| <= |s| && r == s[Leading(s)..Leading(s) + |r|]
  {
    var t := TrimStart(s);
    TrimEndKeepsStart(t);
    TrimEndIsSlice(s, t);
    TrimEnd(t)
  }

  /** Trimming the end keeps the first character. */
  lemma TrimEndKeepsStart(t: string)
    ensures TrimEnd(t) != [] ==> TrimEnd(t)[0] == t[0]
  {
  }

  /** The length of the leading whitespace of `s`. */
  function Leading(s: string): (n: nat)
    ensures n <= |s|
  {
    |s| - |TrimStart(s)|
  }

  lemma TrimEndIsSlice(s: string, t: string)
    requires |t| <= |s| && t == s[|s| - |t|..]
    ensures |s| - |t| + |TrimEnd(t)| <= |s| && TrimEnd(t) == s[|s| - |t|..|s| - |t| + |TrimEnd(t)|]
  {
  }

  /** Trimming removes whitespace and nothing else: what precedes the
      trimmed text in `s` and what follows it is whitespace. */
  lemma TrimDropsOnlySpace(s: string)
    ensures forall k :: 0 <= k < Leading(s) ==> IsSpace(s[k])
    ensures forall k :: Leading(s) + |Trim(s)| <= k < |s| ==> IsSpace(s[k])
  {
    var t := TrimStart(s);
    var i, u := |s| - |t|, TrimEnd(t);
    assert Trim(s) == u;
    forall k | i + |u| <= k < |s|
      ensures IsSpace(s[k])
    {
      assert s[k] == t[k - i];
    }
  }

  /** Text without whitespace is left as it is. */
  lemma TrimOfPlain(s: string)
    ensures (forall i :: 0 <= i < |s| ==> !IsSpace(s[i])) ==> Trim(s) == s
  {
    if forall i :: 0 <= i < |s| ==> !IsSpace(s[i]) {
      assert |TrimStart(s)| == |s|;
      assert TrimStart(s) == s;
      if s != [] {
        assert !IsSpace(s[|s| - 1]);
      }
    }
  }

  // ---------------------------------------------------------------------------
  // parseInt(s, 10)

  predicate IsDigit(c: char) { '0' <= c <= '9' }

  function DigitValue(c: char): nat
    requires IsDigit(c)
  {
    (c as int - '0' as int) as nat
  }

  function DigitChar(d: nat): (c: char)
    requires d < 10
    ensures IsDigit(c) && DigitValue(c) == d
  {
    ('0' as int + d) as char
  }

  /** The longest prefix of `s` made of decimal digits. */
  function DigitPrefix(s: string): (r: string)
    ensures |r| <= |s| && r == s[..|r|]
    ensures forall i :: 0 <= i < |r| ==> IsDigit(r[i])
    ensures |r| < |s| ==> !IsDigit(s[|r|])
  {
    if s != [] && IsDigit(s[0]) then [s[0]] + DigitPrefix(s[1..]) else []
  }

  /** The value of a string of decimal digits, most significant first. */
  function DigitsValue(d: string): nat
    requires forall i :: 0 <= i < |d| ==> IsDigit(d[i])
  {
    if d == [] then 0 else DigitsValue(d[..|d| - 1]) * 10 + DigitValue(d[|d| - 1])
  }

  /** `parseInt(s, 10)`: leading whitespace is skipped, one optional sign is
      read, then the longest run of digits; `None` stands for NaN (no digit). */
  function ParseInt(s: string): (r: Option<int>)
    ensures (forall i :: 0 <= i < |s| ==> IsSpace(s[i])) ==> r.None?
    ensures r.Some? && r.value < 0 ==> TrimStart(s) != [] && TrimStart(s)[0] == '-'
  {
    var t := TrimStart(s);
    var signed := t != [] && (t[0] == '-' || t[0] == '+');
    var body := if signed then t[1..] else t;
    var d := DigitPrefix(body);
    if d == [] then None
    else if signed && t[0] == '-' then Some(-(DigitsValue(d) as int))
    else Some(DigitsValue(d))
  }

  /** The decimal text of a natural number, as `String(n)` writes it. */
  function DecimalText(n: nat): (r: string)
    ensures r != [] && forall i :: 0 <= i < |r| ==> IsDigit(r[i])
  {
    if n < 10 then [DigitChar(n)] else DecimalText(n / 10) + [DigitChar(n % 10)]
  }

  lemma {:induction false} DecimalTextValue(n: nat)
    ensures DigitsValue(DecimalText(n)) == n
  {
    if n >= 10 {
      DecimalTextValue(n / 10);
      var r := DecimalText(n);
      assert r[..|r| - 1] == DecimalText(n / 10);
    }
  }

  lemma {:induction false} DigitPrefixOfDigits(s: string)
    requires forall i :: 0 <= i < |s| ==> IsDigit(s[i])
    ensures DigitPrefix(s) == s
  {
    if s != [] {
      DigitPrefixOfDigits(s[1..]);
    }
  }

  /** A non-empty string of plain digits parses to its decimal value. */
  lemma ParseDigits(s: string)
    requires s != [] && forall i :: 0 <= i < |s| ==> IsDigit(s[i])
    ensures ParseInt(s) == Some(DigitsValue(s))
  {
    assert IsDigit(s[0]) && !IsSpace(s[0]);
    assert TrimStart(s) == s;
    assert s[0] != '-' && s[0] != '+';
    DigitPrefixOfDigits(s);
  }

  /** Round trip: `parseInt(String(n), 10) == n` for every natural number. */
  lemma ParseDecimalText(n: nat)
    ensures ParseInt(DecimalText(n)) == Some(n)
  {
    ParseDigits(DecimalText(n));
    DecimalTextValue(n);
  }

  // ---------------------------------------------------------------------------
  // Query-string limits

  function Clamp(v: int, lo: int, hi: int): int {
    if v < lo then lo else if v > hi then hi else v
  }

  /** `Math.min(Math.max(parseInt(param || String(dflt), 10) || dflt, lo), hi)`:
      a missing or empty parameter, a value that does not parse and a value
      that parses to 0 all fall back to the default; the result is then
      clamped into `[lo, hi]`. */
  function LimitParam(param: Option<string>, dflt: nat, lo: int, hi: int): (r: int)
    requires lo <= hi
    ensures lo <= r <= hi
    ensures !Truthy(param) ==> r == Clamp(dflt, lo, hi)
    ensures forall p :: Truthy(param) && ParseInt(param.value) == Some(p) && p != 0 ==> r == Clamp(p, lo, hi)
    ensures forall p :: Truthy(param) && ParseInt(param.value) == Some(p) && p != 0 && lo <= p <= hi ==> r == p
    ensures Truthy(param) && (ParseInt(param.value).None? || ParseInt(param.value) == Some(0))
            ==> r == Clamp(dflt, lo, hi)
  {
    var parsed := if Truthy(param) then ParseInt(param.value) else (ParseDecimalText(dflt); ParseInt(DecimalText(dflt)));
    var v := if parsed.None? || parsed.value == 0 then dflt else parsed.value;
    Clamp(v, lo, hi)
  }

  // ---------------------------------------------------------------------------
  // Metric rows

  /** A row of the `well_metrics` table; a column that is null is `None`. */
  datatype MetricRow = MetricRow(
    wellId: string,
    ph: Option<real>,
    tds: Option<real>,
    temperature: Option<real>,
    waterLevel: Option<real>,
    turbidity: Option<real>,
    ts: Option<string>)

  // ---------------------------------------------------------------------------
  // First row per key

  /** Over a list that is ordered newest first, keeps for each key the first
      row that carries it: a later (older) row never replaces it. Both API
      routes fill a dictionary this way, writing an entry only when the key
      has none yet. */
  method FirstPerKey<K(==), R>(rows: seq<R>, key: R -> K) returns (m: map<K, R>)
    ensures forall k :: k in m <==> exists i :: 0 <= i < |rows| && key(rows[i]) == k
    ensures forall k :: k in m ==> exists i :: 0 <= i < |rows| && rows[i] == m[k] && key(rows[i]) == k
                                      && forall j :: 0 <= j < i ==> key(rows[j]) != k
  {
    m := map[];
    var n := 0;
    while n < |rows|
      invariant 0 <= n <= |rows|
      invariant m.Keys == set i | 0 <= i < n :: key(rows[i])
      invariant forall k :: k in m ==> exists i :: 0 <= i < n && rows[i] == m[k] && key(rows[i]) == k
                                          && forall j :: 0 <= j < i ==> key(rows[j]) != k
    {
      var k := key(rows[n]);
      if k !in m {
        assert forall i :: 0 <= i < n ==> key(rows[i]) != k;
        m := m[k := rows[n]];
        assert rows[n] == m[k] && key(rows[n]) == k;
      }
      n := n + 1;
    }
  }

  /** The first row of `rows` whose key is `k`. */
  function FirstWithKey<K(==), R>(rows: seq<R>, key: R -> K, k: K): (r: Option<R>)
    ensures r.None? <==> forall i :: 0 <= i < |rows| ==> key(rows[i]) != k
    ensures r.Some? ==> key(r.value) == k && r.value in rows
  {
    if rows == [] then None else if key(rows[0]) == k then Some(rows[0]) else FirstWithKey(rows[1..], key, k)
  }

  /** The row the dictionary of `FirstPerKey` keeps for a key is the first row
      with that key. */
  lemma {:induction false} FirstWithKeyAt<K, R>(rows: seq<R>, key: R -> K, i: nat)
    requires i < |rows|
    requires forall j :: 0 <= j < i ==> key(rows[j]) != key(rows[i])
    ensures FirstWithKey(rows, key, key(rows[i])) == Some(rows[i])
  {
    if i > 0 {
      FirstWithKeyAt(rows[1..], key, i - 1);
    }
  }

  /** A lookup in the dictionary built by `FirstPerKey`: the first row with
      the key, or none. */
  lemma FirstPerKeyLookup<K, R>(rows: seq<R>, key: R -> K, m: map<K, R>, k: K)
    requires forall k :: k in m <==> exists i :: 0 <= i < |rows| && key(rows[i]) == k
    requires forall k :: k in m ==> exists i :: 0 <= i < |rows| && rows[i] == m[k] && key(rows[i]) == k
                                      && forall j :: 0 <= j < i ==> key(rows[j]) != k
    ensures (if k in m then Some(m[k]) else None) == FirstWithKey(rows, key, k)
  {
    if k in m {
      var i :| 0 <= i < |rows| && rows[i] == m[k] && key(rows[i]) == k
               && forall j :: 0 <= j < i ==> key(rows[j]) != k;
      FirstWithKeyAt(rows, key, i);
    }
  }
}
