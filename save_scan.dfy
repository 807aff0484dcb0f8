/**
 * Scan reconciliation: the table of translation rows, keyed by (namespace, group, key)
 * with a soft-delete flag and a locale-to-text map, is brought in line with the keys a
 * scan of the application found. Every live row is first soft-deleted; every scanned key
 * is then parsed and looked up (soft-deleted rows included); a row that matches is
 * restored unless its translation line is an array, and a key with no row gets a new
 * row holding one text per configured locale. The whole run is one database transaction.
 *
 * Line numbers in the comments of this module refer to `src/Services/SaveScan.php`.
 */
module SaveScan {
  import opened Wrappers
  import opened Php

  /** The identity of a translation row. */
  datatype Triple = Triple(namespace: string, group: string, key: string)

  /** A row of the translation table: its soft-delete flag and its texts per locale. */
  datatype Row = Row(deleted: bool, text: map<string, string>)

  /** What the translator resolves a key to in a locale: a string, or an array of lines. */
  datatype Line = Text(s: string) | Group

  /**
   * The configuration and translator seen by a scan: the configured locales
   * (`filament-translations.locals`), the application locale (`app.locale`) and the
   * translator's catalogue, which gives the line a key resolves to in a locale, or
   * None when there is no such line.
   */
  datatype ScanEnv = ScanEnv(locales: seq<string>, defaultLocale: string, lines: (string, string) -> Option<Line>)

  // ---------------------------------------------------------------------------
  // Splitting a grouped key

  /** `sep` occurs in `s` starting at index `i`. */
  predicate Occurs(s: string, sep: string, i: nat) {
    i + |sep| <= |s| && s[i..i + |sep|] == sep
  }

  lemma OccursChar(s: string, c: char, i: nat)
    ensures Occurs(s, [c], i) <==> i < |s| && s[i] == c
  {
    if i < |s| {
      assert s[i..i + 1] == [s[i]];
    }
  }

  lemma OccursHead(s: string, sep: string, i: nat)
    requires |sep| > 0
    ensures Occurs(s, sep, i) ==> i < |s| && s[i] == sep[0]
  {
    if i + |sep| <= |s| {
      assert s[i..i + |sep|][0] == s[i];
    }
  }

  /** `s` contains no `:`, so it contains no `::`. */
  lemma NoColonNoSeparator(s: string)
    requires ':' !in s
    ensures forall j: nat :: !Occurs(s, "::", j)
  {
    forall j: nat ensures !Occurs(s, "::", j) {
      OccursHead(s, "::", j);
    }
  }

  /** The first index at or after `from` where `sep` occurs. */
  function FirstIndex(s: string, sep: string, from: nat): (r: Option<nat>)
    requires |sep| > 0
    ensures r.Some? ==> from <= r.value && Occurs(s, sep, r.value)
    ensures r.Some? ==> forall j: nat :: from <= j < r.value ==> !Occurs(s, sep, j)
    ensures r.None? ==> forall j: nat :: from <= j ==> !Occurs(s, sep, j)
    decreases |s| - from
  {
    if from + |sep| > |s| then None
    else if Occurs(s, sep, from) then Some(from)
    else FirstIndex(s, sep, from + 1)
  }

  /** `explode($sep, $s, 2)`: the text before the first `sep` and the rest, or `[s]` when `sep` does not occur. */
  function Explode2(sep: string, s: string): (r: seq<string>)
    requires |sep| > 0
    ensures |r| == 1 || |r| == 2
  {
    match FirstIndex(s, sep, 0)
    case None => [s]
    case Some(i) => [s[..i], s[i + |sep|..]]
  }

  /** One part when `sep` does not occur; otherwise the parts around its first occurrence. */
  lemma Explode2Spec(sep: string, s: string)
    requires |sep| > 0
    ensures var r := Explode2(sep, s);
      && (|r| == 1 <==> forall j: nat :: !Occurs(s, sep, j))
      && (|r| == 1 ==> r[0] == s)
      && (|r| == 2 ==> s == r[0] + sep + r[1])
      && (|r| == 2 ==> Occurs(s, sep, |r[0]|) && forall j: nat :: j < |r[0]| ==> !Occurs(s, sep, j))
  {
    match FirstIndex(s, sep, 0)
    case None =>
    case Some(i) =>
      assert s == s[..i] + s[i..i + |sep|] + s[i + |sep|..];
  }

  /** When the first `sep` of `a + sep + b` is the one between them, explode gives back `a` and `b`. */
  lemma ExplodeAtFirst(sep: string, a: string, b: string)
    requires |sep| > 0
    requires forall j: nat :: j < |a| ==> !Occurs(a + sep + b, sep, j)
    ensures Explode2(sep, a + sep + b) == [a, b]
  {
    var s := a + sep + b;
    assert s[|a|..|a| + |sep|] == sep;
    assert Occurs(s, sep, |a|);
    var r := Explode2(sep, s);
    assert |r[0]| == |a|;
    assert r[0] == s[..|a|] == a;
    assert r[1] == s[|a| + |sep|..] == b;
  }

  /**
   * Lines 41-48: split at the first `.` into group and key, then split the group at its
   * first `::` into namespace and group, the namespace being `*` when there is none.
   * None when the key has no `.`: the two-element destructuring then reads a missing
   * array key, which the framework turns into an exception.
   */
  function ParseGroupedKey(s: string): (r: Option<Triple>)
  {
    var parts := Explode2(".", s);
    if |parts| == 1 then None
    else
      var ng := Explode2("::", parts[0]);
      if |ng| == 1 then Some(Triple("*", parts[0], parts[1]))
      else Some(Triple(ng[0], ng[1], parts[1]))
  }

  /** A grouped key parses exactly when it contains a `.`. */
  lemma ParseFailsIffNoDot(s: string)
    ensures ParseGroupedKey(s).None? <==> '.' !in s
  {
    forall j: nat
      ensures Occurs(s, ".", j) <==> j < |s| && s[j] == '.'
    {
      OccursChar(s, '.', j);
    }
  }

  /** `g.k`, with no `.` and no `::` in `g`, parses to (`*`, `g`, `k`); `k` may hold more dots. */
  lemma ParsePlain(g: string, k: string)
    requires '.' !in g
    requires forall j: nat :: !Occurs(g, "::", j)
    ensures ParseGroupedKey(g + "." + k) == Some(Triple("*", g, k))
  {
    var s := g + "." + k;
    forall j: nat | j < |g|
      ensures !Occurs(s, ".", j)
    {
      OccursChar(s, '.', j);
      assert s[j] == g[j];
    }
    ExplodeAtFirst(".", g, k);
  }

  /**
   * `ns::g.k`, with no `.` or `:` in `ns` and no `.` in `g`, parses to (`ns`, `g`, `k`):
   * the split at `.` comes first, so `pkg::a.b.c` gives (`pkg`, `a`, `b.c`).
   */
  lemma ParseNamespaced(ns: string, g: string, k: string)
    requires '.' !in ns && '.' !in g
    requires forall j: nat :: !Occurs(ns, "::", j)
    requires ns == [] || ns[|ns| - 1] != ':'
    ensures ParseGroupedKey(ns + "::" + g + "." + k) == Some(Triple(ns, g, k))
  {
    var gp := ns + "::" + g;
    var s := gp + "." + k;
    assert s == ns + "::" + g + "." + k;
    forall j: nat | j < |gp|
      ensures !Occurs(s, ".", j)
    {
      OccursChar(s, '.', j);
      assert s[j] == gp[j];
      if j < |ns| { assert gp[j] == ns[j]; }
      else if j < |ns| + 2 { assert gp[j] == ':'; }
      else { assert gp[j] == g[j - |ns| - 2]; }
    }
    ExplodeAtFirst(".", gp, k);
    forall j: nat | j < |ns|
      ensures !Occurs(gp, "::", j)
    {
      if j + 1 < |ns| {
        assert gp[j..j + 2] == ns[j..j + 2];
        assert !Occurs(ns, "::", j);
      } else {
        assert gp[j] == ns[j] != ':';
        assert j + 2 <= |gp| ==> gp[j..j + 2][0] == gp[j];
      }
    }
    ExplodeAtFirst("::", ns, g);
  }

  // ---------------------------------------------------------------------------
  // The key looked up by isCurrentTransForTranslationArray

  /** Lines 95-103: the key a row is looked up by: `key`, `group.key` or `namespace::group.key`. */
  function LookupKey(t: Triple): string {
    if t.group == "*" then t.key
    else if t.namespace == "*" then t.group + "." + t.key
    else t.namespace + "::" + t.group + "." + t.key
  }

  /** The lookup key rebuilds a namespaced grouped key exactly. */
  lemma LookupKeyInvertsNamespacedParse(s: string, t: Triple)
    requires ParseGroupedKey(s) == Some(t)
    requires t.group != "*" && t.namespace != "*"
    ensures LookupKey(t) == s
  {
    var parts := Explode2(".", s);
    var ng := Explode2("::", parts[0]);
    assert |parts| == 2 && |ng| == 2;
    assert parts[0] == ng[0] + "::" + ng[1];
    assert t == Triple(ng[0], ng[1], parts[1]);
    assert s == ng[0] + "::" + ng[1] + "." + parts[1];
  }

  /** The lookup key rebuilds `g.k` when `g` is a real group (not `*`) without `.` and without `::`. */
  lemma LookupKeyInvertsPlainParse(g: string, k: string)
    requires '.' !in g && g != "*"
    requires forall j: nat :: !Occurs(g, "::", j)
    ensures ParseGroupedKey(g + "." + k).Some?
    ensures LookupKey(ParseGroupedKey(g + "." + k).value) == g + "." + k
  {
    ParsePlain(g, k);
  }

  /** Where the inverse fails: for a group without `.`, `*::g.k` parses to (`*`, `g`, `k`), so the lookup key leaves the `*::` out. */
  lemma LookupKeyDropsStarNamespace(g: string, k: string)
    requires '.' !in g
    ensures ParseGroupedKey("*::" + g + "." + k) == Some(Triple("*", g, k))
    ensures LookupKey(Triple("*", g, k)) != "*::" + g + "." + k
  {
    NoColonNoSeparator("*");
    ParseNamespaced("*", g, k);
    assert "*" + "::" == "*::";
    assert |LookupKey(Triple("*", g, k))| < |"*::" + g + "." + k|;
  }

  /** Where the inverse fails: a `*` group is looked up by its key alone. */
  lemma LookupKeyDropsStarGroup(k: string)
    ensures ParseGroupedKey("*." + k) == Some(Triple("*", "*", k))
    ensures LookupKey(Triple("*", "*", k)) == k != "*." + k
  {
    NoColonNoSeparator("*");
    ParsePlain("*", k);
    assert "*" + "." == "*.";
    assert |"*." + k| == |k| + 2;
  }

  /** Lines 93-104: the row's line in the application locale is an array. */
  predicate IsCurrentTransForTranslationArray(t: Triple, env: ScanEnv) {
    env.lines(LookupKey(t), env.defaultLocale) == Some(Group)
  }

  // ---------------------------------------------------------------------------
  // The texts of a new row

  /** The fallback text: the key with `.` and `_` turned into spaces, then title-cased. */
  function Fallback(key: string): (r: string)
    ensures |r| == |key|
    ensures '.' !in r && '_' !in r
    ensures |key| > 0 && IsLetter(key[0]) ==> r[0] == UpperChar(key[0])
    ensures forall i :: 0 <= i < |key| && !IsLetter(key[i]) ==>
              r[i] == (if key[i] == '.' || key[i] == '_' then ' ' else key[i])
    ensures forall i :: 0 <= i < |key| && IsLetter(key[i]) ==> IsLetter(r[i]) && LowerChar(r[i]) == LowerChar(key[i])
  {
    var spaced := ReplaceChar(ReplaceChar(key, '.', ' '), '_', ' ');
    var r := Title(spaced);
    assert forall i :: 0 <= i < |key| ==> spaced[i] == (if key[i] == '.' || key[i] == '_' then ' ' else key[i]);
    assert forall i :: 0 <= i < |r| ==> r[i] != '.' && r[i] != '_' by {
      forall i | 0 <= i < |r| ensures r[i] != '.' && r[i] != '_' {
        if !IsLetter(spaced[i]) { assert r[i] == spaced[i]; }
      }
    }
    r
  }

  /** Lines 77-78: the text stored for one locale: the line, `''` for an array line, the fallback when there is none. */
  function LocaleText(line: Option<Line>, key: string): (r: string)
    ensures line.Some? && line.value.Text? ==> r == line.value.s
    ensures line == Some(Group) ==> r == ""
    ensures line.None? ==> |r| == |key| && '.' !in r && '_' !in r
  {
    match line
    case Some(Text(s)) => s
    case Some(Group) => ""
    case None => Fallback(key)
  }

  /**
   * Lines 77-78 as written: `fallback:` binds the translator's boolean
   * "use the fallback locale" parameter, not a default text, so a key with no line
   * comes back as the key itself.
   */
  function LocaleTextAsWritten(line: Option<Line>, key: string): string {
    match line
    case Some(Text(s)) => s
    case Some(Group) => ""
    case None => key
  }

  /**
   * As written, a key with no line is stored verbatim: whenever the key starts with a
   * lower-case letter or holds a `.` or `_`, the stored text differs from the fallback.
   */
  lemma FallbackIgnoredAsWritten(key: string)
    requires (|key| > 0 && IsLower(key[0])) || '.' in key || '_' in key
    ensures LocaleTextAsWritten(None, key) == key
    ensures LocaleTextAsWritten(None, key) != LocaleText(None, key)
  {
    var f := LocaleText(None, key);
    if |key| > 0 && IsLower(key[0]) {
      assert f[0] != key[0];
    }
  }

  /** The key `welcome` of `messages.welcome` is stored as `welcome`, not `Welcome`. */
  lemma FallbackIgnoredExample()
    ensures LocaleTextAsWritten(None, "welcome") == "welcome"
    ensures LocaleText(None, "welcome")[0] == 'W'
  {
  }

  /** The corrected text of a missing line is the title-cased key, with no `.` and no `_` left. */
  lemma MissingLineUsesFallback(key: string)
    ensures LocaleText(None, key) == Fallback(key)
    ensures |LocaleText(None, key)| == |key|
    ensures '.' !in LocaleText(None, key) && '_' !in LocaleText(None, key)
  {
  }

  /** The `text` of a row created for `key`: one entry per configured locale. */
  function NewText(key: string, env: ScanEnv): map<string, string> {
    map l | l in env.locales :: LocaleText(env.lines(key, l), key)
  }

  /** Lines 74-79: the loop over the configured locales that builds a new row's texts. */
  method BuildText(key: string, env: ScanEnv) returns (text: map<string, string>)
    ensures text.Keys == set l | l in env.locales
    ensures forall l :: l in text ==> text[l] == LocaleText(env.lines(key, l), key)
    ensures text == NewText(key, env)
  {
    text := map[];
    var i := 0;
    while i < |env.locales|
      invariant 0 <= i <= |env.locales|
      invariant text.Keys == set l | l in env.locales[..i]
      invariant forall l :: l in text ==> text[l] == LocaleText(env.lines(key, l), key)
    {
      var l := env.locales[i];
      text := text[l := LocaleText(env.lines(key, l), key)];
      assert env.locales[..i + 1] == env.locales[..i] + [l];
      i := i + 1;
    }
    assert env.locales[..i] == env.locales;
  }

  // ---------------------------------------------------------------------------
  // The reconciliation, as functions on the table

  /** Lines 34-38: every row is soft-deleted (the live ones are marked, the others already are). */
  function MarkAllDeleted(rows: map<Triple, Row>): (r: map<Triple, Row>)
    ensures r.Keys == rows.Keys
    ensures forall t :: t in r ==> r[t].deleted && r[t].text == rows[t].text
  {
    map t | t in rows :: rows[t].(deleted := true)
  }

  /**
   * Lines 58-91, `createOrUpdate`: a row that exists (soft-deleted or not) is restored
   * unless its line is an array, and keeps its texts; a missing row is inserted live
   * with its new texts, whatever the array check says.
   */
  function Reconcile(rows: map<Triple, Row>, t: Triple, env: ScanEnv): map<Triple, Row> {
    if t in rows then rows[t := rows[t].(deleted := rows[t].deleted && IsCurrentTransForTranslationArray(t, env))]
    else rows[t := Row(false, NewText(t.key, env))]
  }

  /** `createOrUpdate` applied to each triple in turn. */
  function ReconcileAll(rows: map<Triple, Row>, ts: seq<Triple>, env: ScanEnv): map<Triple, Row>
    decreases |ts|
  {
    if ts == [] then rows
    else Reconcile(ReconcileAll(rows, ts[..|ts| - 1], env), ts[|ts| - 1], env)
  }

  /**
   * The outcome of reconciling a set of triples, stated all at once: triples outside
   * the set keep their row; an existing row in the set stays deleted only if it was and
   * its line is an array, keeping its texts; a triple without a row gets a live new row.
   */
  function Expected(rows: map<Triple, Row>, found: set<Triple>, env: ScanEnv): map<Triple, Row> {
    map t | t in rows.Keys + found ::
      if t !in found then rows[t]
      else if t in rows then rows[t].(deleted := rows[t].deleted && IsCurrentTransForTranslationArray(t, env))
      else Row(false, NewText(t.key, env))
  }

  lemma ReconcileExpected(rows: map<Triple, Row>, found: set<Triple>, t: Triple, env: ScanEnv)
    ensures Reconcile(Expected(rows, found, env), t, env) == Expected(rows, found + {t}, env)
  {
    var a := Reconcile(Expected(rows, found, env), t, env);
    var b := Expected(rows, found + {t}, env);
    assert a.Keys == b.Keys;
    forall u | u in a ensures a[u] == b[u] {
    }
  }

  /** Reconciling the triples one after another gives the all-at-once outcome; order and repeats do not matter. */
  lemma {:induction false} ReconcileAllIsExpected(rows: map<Triple, Row>, ts: seq<Triple>, env: ScanEnv)
    ensures ReconcileAll(rows, ts, env) == Expected(rows, (set t | t in ts), env)
    decreases |ts|
  {
    if ts == [] {
      var e := Expected(rows, {}, env);
      assert e.Keys == rows.Keys;
      assert forall u | u in e :: e[u] == rows[u];
    } else {
      var p := ts[..|ts| - 1];
      var last := ts[|ts| - 1];
      ReconcileAllIsExpected(rows, p, env);
      ReconcileExpected(rows, (set t | t in p), last, env);
      assert ts == p + [last];
      assert (set t | t in ts) == (set t | t in p) + {last};
    }
  }

  /** Reconciling `a + b` is reconciling `a`, then `b`. */
  lemma {:induction false} ReconcileAllAppend(rows: map<Triple, Row>, a: seq<Triple>, b: seq<Triple>, env: ScanEnv)
    ensures ReconcileAll(rows, a + b, env) == ReconcileAll(ReconcileAll(rows, a, env), b, env)
    decreases |b|
  {
    if b == [] {
      assert a + b == a;
    } else {
      var b' := b[..|b| - 1];
      assert (a + b)[..|a + b| - 1] == a + b';
      assert (a + b)[|a + b| - 1] == b[|b| - 1];
      ReconcileAllAppend(rows, a, b', env);
    }
  }

  // ---------------------------------------------------------------------------
  // The whole scan

  /** The triples of the grouped keys, in order; None when one of them has no `.`. */
  function ParseAll(keys: seq<string>): (r: Option<seq<Triple>>)
    ensures r.Some? <==> forall i :: 0 <= i < |keys| ==> ParseGroupedKey(keys[i]).Some?
    ensures r.Some? ==> |r.value| == |keys|
    ensures r.Some? ==> forall i :: 0 <= i < |keys| ==> Some(r.value[i]) == ParseGroupedKey(keys[i])
    decreases |keys|
  {
    if keys == [] then Some([])
    else
      var init := keys[..|keys| - 1];
      assert forall i :: 0 <= i < |init| ==> init[i] == keys[i];
      match ParseAll(init)
      case None => None
      case Some(ts) =>
        match ParseGroupedKey(keys[|keys| - 1])
        case None => None
        case Some(t) => Some(ts + [t])
  }

  /** Lines 52-54: a flat literal `s` is reconciled as (`*`, `*`, `s`). */
  function FlatTriples(literals: seq<string>): (r: seq<Triple>)
    ensures |r| == |literals|
    ensures forall i :: 0 <= i < |literals| ==> r[i] == Triple("*", "*", literals[i])
  {
    seq(|literals|, i requires 0 <= i < |literals| => Triple("*", "*", literals[i]))
  }

  /**
   * Every triple a scan reconciles, in the order `save` visits them: the grouped keys
   * first, then the flat literals. None when a grouped key has no `.`.
   */
  function ScanTriples(grouped: seq<string>, literals: seq<string>): (r: Option<seq<Triple>>)
    ensures r.None? <==> exists i :: 0 <= i < |grouped| && '.' !in grouped[i]
    ensures r.Some? ==> |r.value| == |grouped| + |literals|
    ensures r.Some? ==> forall i :: 0 <= i < |grouped| ==> Some(r.value[i]) == ParseGroupedKey(grouped[i])
    ensures r.Some? ==> forall i :: 0 <= i < |literals| ==> r.value[|grouped| + i] == Triple("*", "*", literals[i])
  {
    forall i | 0 <= i < |grouped| ensures ParseGroupedKey(grouped[i]).None? <==> '.' !in grouped[i] {
      ParseFailsIffNoDot(grouped[i]);
    }
    match ParseAll(grouped)
    case None => None
    case Some(ts) => Some(ts + FlatTriples(literals))
  }

  /** Lines 20-56: the table after a scan, or None when the transaction aborts (the table is then unchanged). */
  function ScanResult(rows: map<Triple, Row>, grouped: seq<string>, literals: seq<string>, env: ScanEnv): Option<map<Triple, Row>> {
    match ScanTriples(grouped, literals)
    case None => None
    case Some(ts) => Some(ReconcileAll(MarkAllDeleted(rows), ts, env))
  }

  /** The set of triples a scan found. */
  function Found(grouped: seq<string>, literals: seq<string>): set<Triple>
    requires ScanTriples(grouped, literals).Some?
  {
    set t | t in ScanTriples(grouped, literals).value
  }

  lemma ScanIsExpected(rows: map<Triple, Row>, grouped: seq<string>, literals: seq<string>, env: ScanEnv)
    requires ScanTriples(grouped, literals).Some?
    ensures ScanResult(rows, grouped, literals, env) == Some(Expected(MarkAllDeleted(rows), Found(grouped, literals), env))
  {
    ReconcileAllIsExpected(MarkAllDeleted(rows), ScanTriples(grouped, literals).value, env);
  }

  /** The row of one triple after a scan. */
  lemma ScanAt(rows: map<Triple, Row>, grouped: seq<string>, literals: seq<string>, env: ScanEnv, t: Triple)
    requires ScanTriples(grouped, literals).Some?
    ensures var after := ScanResult(rows, grouped, literals, env).value;
      var found := Found(grouped, literals);
      && (t in after <==> t in rows || t in found)
      && (t in rows && t !in found ==> after[t] == Row(true, rows[t].text))
      && (t in rows && t in found ==> after[t] == Row(IsCurrentTransForTranslationArray(t, env), rows[t].text))
      && (t !in rows && t in found ==> after[t] == Row(false, NewText(t.key, env)))
  {
    ScanIsExpected(rows, grouped, literals, env);
    var m := MarkAllDeleted(rows);
    assert t in m <==> t in rows;
    assert t in rows ==> m[t] == Row(true, rows[t].text);
  }

  /**
   * After a scan no row has disappeared, the only new rows are for found triples, and
   * every row whose triple was not found is soft-deleted.
   */
  lemma UnmatchedStaySoftDeleted(rows: map<Triple, Row>, grouped: seq<string>, literals: seq<string>, env: ScanEnv)
    requires ScanTriples(grouped, literals).Some?
    ensures var after := ScanResult(rows, grouped, literals, env).value;
      && after.Keys == rows.Keys + Found(grouped, literals)
      && forall t :: t in after && t !in Found(grouped, literals) ==> after[t].deleted
  {
    var after := ScanResult(rows, grouped, literals, env).value;
    var found := Found(grouped, literals);
    forall t ensures (t in after <==> t in rows || t in found) && (t in after && t !in found ==> after[t].deleted) {
      ScanAt(rows, grouped, literals, env, t);
    }
  }

  /**
   * A found triple is soft-deleted after the scan exactly when it already had a row
   * and its line is an array; a newly inserted row is live whatever the array check says.
   */
  lemma RestoreDependsOnArrayLine(rows: map<Triple, Row>, grouped: seq<string>, literals: seq<string>, env: ScanEnv, t: Triple)
    requires ScanTriples(grouped, literals).Some?
    requires t in Found(grouped, literals)
    ensures var after := ScanResult(rows, grouped, literals, env).value;
      t in after && after[t].deleted == (t in rows && IsCurrentTransForTranslationArray(t, env))
  {
    ScanAt(rows, grouped, literals, env, t);
  }

  /** A scan never changes the texts of an existing row. */
  lemma ExistingTextsUntouched(rows: map<Triple, Row>, grouped: seq<string>, literals: seq<string>, env: ScanEnv, t: Triple)
    requires ScanTriples(grouped, literals).Some?
    requires t in rows
    ensures var after := ScanResult(rows, grouped, literals, env).value;
      t in after && after[t].text == rows[t].text
  {
    ScanAt(rows, grouped, literals, env, t);
  }

  /** A new row holds one text per configured locale: the line, `''` for an array line, else the fallback. */
  lemma NewRowsGetLocaleTexts(rows: map<Triple, Row>, grouped: seq<string>, literals: seq<string>, env: ScanEnv, t: Triple)
    requires ScanTriples(grouped, literals).Some?
    requires t in Found(grouped, literals) && t !in rows
    ensures var after := ScanResult(rows, grouped, literals, env).value;
      && t in after
      && after[t].text.Keys == set l | l in env.locales
      && forall l :: l in after[t].text ==> after[t].text[l] == LocaleText(env.lines(t.key, l), t.key)
  {
    ScanAt(rows, grouped, literals, env, t);
  }

  /** Rescanning the same keys inserts no row and changes no row's texts. */
  lemma RescanInsertsNothing(rows: map<Triple, Row>, grouped: seq<string>, literals: seq<string>, env: ScanEnv)
    requires ScanTriples(grouped, literals).Some?
    ensures var once := ScanResult(rows, grouped, literals, env).value;
      var twice := ScanResult(once, grouped, literals, env).value;
      && twice.Keys == once.Keys
      && forall t :: t in once ==> twice[t].text == once[t].text
  {
    var once := ScanResult(rows, grouped, literals, env).value;
    var twice := ScanResult(once, grouped, literals, env).value;
    forall t ensures (t in twice <==> t in once) && (t in once ==> twice[t].text == once[t].text) {
      ScanAt(rows, grouped, literals, env, t);
      ScanAt(once, grouped, literals, env, t);
    }
  }

  /**
   * A table is settled for a set of found triples when each of them has a row, soft-deleted
   * exactly when its line is an array, and every other row is soft-deleted.
   */
  ghost predicate Settled(rows: map<Triple, Row>, found: set<Triple>, env: ScanEnv) {
    && found <= rows.Keys
    && forall t :: t in rows ==> rows[t].deleted == (t !in found || IsCurrentTransForTranslationArray(t, env))
  }

  /** Scanning a settled table changes nothing. */
  lemma ScanKeepsSettled(rows: map<Triple, Row>, grouped: seq<string>, literals: seq<string>, env: ScanEnv)
    requires ScanTriples(grouped, literals).Some?
    requires Settled(rows, Found(grouped, literals), env)
    ensures ScanResult(rows, grouped, literals, env) == Some(rows)
  {
    var after := ScanResult(rows, grouped, literals, env).value;
    forall t ensures (t in after <==> t in rows) && (t in rows ==> after[t] == rows[t]) {
      ScanAt(rows, grouped, literals, env, t);
    }
    assert after == rows;
  }

  /** Two scans with the same keys leave the table settled. */
  lemma TwoScansSettle(rows: map<Triple, Row>, grouped: seq<string>, literals: seq<string>, env: ScanEnv)
    requires ScanTriples(grouped, literals).Some?
    ensures var once := ScanResult(rows, grouped, literals, env).value;
      Settled(ScanResult(once, grouped, literals, env).value, Found(grouped, literals), env)
  {
    var once := ScanResult(rows, grouped, literals, env).value;
    var twice := ScanResult(once, grouped, literals, env).value;
    var found := Found(grouped, literals);
    forall t ensures (t in found ==> t in twice) && (t in twice ==> twice[t].deleted == (t !in found || IsCurrentTransForTranslationArray(t, env))) {
      ScanAt(rows, grouped, literals, env, t);
      ScanAt(once, grouped, literals, env, t);
    }
  }

  /** From the second run on, rescanning the same keys leaves the table exactly as it is. */
  lemma SecondScanIsFixpoint(rows: map<Triple, Row>, grouped: seq<string>, literals: seq<string>, env: ScanEnv)
    requires ScanTriples(grouped, literals).Some?
    ensures var once := ScanResult(rows, grouped, literals, env).value;
      var twice := ScanResult(once, grouped, literals, env).value;
      ScanResult(twice, grouped, literals, env) == Some(twice)
  {
    var once := ScanResult(rows, grouped, literals, env).value;
    TwoScansSettle(rows, grouped, literals, env);
    ScanKeepsSettled(ScanResult(once, grouped, literals, env).value, grouped, literals, env);
  }

  /**
   * The first scan is not always a fixpoint: a new row whose line is an array is live
   * after the scan that inserts it and soft-deleted after the next one.
   */
  lemma NewArrayRowHiddenByRescan(rows: map<Triple, Row>, grouped: seq<string>, literals: seq<string>, env: ScanEnv, t: Triple)
    requires ScanTriples(grouped, literals).Some?
    requires t in Found(grouped, literals) && t !in rows
    requires IsCurrentTransForTranslationArray(t, env)
    ensures var once := ScanResult(rows, grouped, literals, env).value;
      var twice := ScanResult(once, grouped, literals, env).value;
      t in once && !once[t].deleted && t in twice && twice[t].deleted
  {
    var once := ScanResult(rows, grouped, literals, env).value;
    ScanAt(rows, grouped, literals, env, t);
    ScanAt(once, grouped, literals, env, t);
  }

  /** A scan aborts (and leaves the table as it was) exactly when a grouped key has no `.`. */
  lemma ScanAbortsIffKeyWithoutDot(rows: map<Triple, Row>, grouped: seq<string>, literals: seq<string>, env: ScanEnv)
    ensures ScanResult(rows, grouped, literals, env).None? <==> exists i :: 0 <= i < |grouped| && '.' !in grouped[i]
  {
  }

  // ---------------------------------------------------------------------------
  // The table, updated in place

  /** The `translations` table. */
  class TranslationTable {
    var rows: map<Triple, Row>

    constructor (initial: map<Triple, Row>)
      ensures rows == initial
    {
      rows := initial;
    }

    /** Lines 34-38: one bulk update sets `deleted_at` on every live row. */
    method SoftDeleteAll()
      modifies this
      ensures rows == MarkAllDeleted(old(rows))
    {
      rows := map t | t in rows :: rows[t].(deleted := true);
    }

    /** Lines 58-91: look the triple up, soft-deleted rows included; restore it, or insert a new row. */
    method CreateOrUpdate(t: Triple, env: ScanEnv)
      modifies this
      ensures rows == Reconcile(old(rows), t, env)
    {
      if t in rows {
        if !IsCurrentTransForTranslationArray(t, env) {
          rows := rows[t := rows[t].(deleted := false)];
        } else {
          assert rows == rows[t := rows[t].(deleted := rows[t].deleted && true)];
        }
      } else {
        var text := BuildText(t.key, env);
        // Lines 87-89 only call save() again on the row just created: no further change.
        rows := rows[t := Row(false, text)];
      }
    }

    /** Lines 40-50: reconcile each grouped key, stopping at the first one without a `.`. */
    method ReconcileGrouped(grouped: seq<string>, env: ScanEnv) returns (ok: bool)
      modifies this
      ensures ok <==> ParseAll(grouped).Some?
      ensures ok ==> rows == ReconcileAll(old(rows), ParseAll(grouped).value, env)
    {
      var ts: seq<Triple> := [];
      var i := 0;
      while i < |grouped|
        invariant 0 <= i <= |grouped|
        invariant ParseAll(grouped[..i]) == Some(ts)
        invariant rows == ReconcileAll(old(rows), ts, env)
      {
        assert grouped[..i + 1][..i] == grouped[..i];
        var parsed := ParseGroupedKey(grouped[i]);
        if parsed.None? {
          return false;
        }
        var t := parsed.value;
        CreateOrUpdate(t, env);
        var ts' := ts + [t];
        assert ts'[..|ts|] == ts;
        ts := ts';
        i := i + 1;
      }
      assert grouped[..i] == grouped;
      ok := true;
    }

    /** Lines 52-54: reconcile each flat literal as (`*`, `*`, literal). */
    method ReconcileLiterals(literals: seq<string>, env: ScanEnv)
      modifies this
      ensures rows == ReconcileAll(old(rows), FlatTriples(literals), env)
    {
      var j := 0;
      while j < |literals|
        invariant 0 <= j <= |literals|
        invariant rows == ReconcileAll(old(rows), FlatTriples(literals[..j]), env)
      {
        var t := Triple("*", "*", literals[j]);
        CreateOrUpdate(t, env);
        var next := FlatTriples(literals[..j + 1]);
        assert next[..j] == FlatTriples(literals[..j]);
        assert next[j] == t;
        j := j + 1;
      }
      assert literals[..j] == literals;
    }

    /**
     * Lines 20-56, `save`: inside one transaction, soft-delete every row, then reconcile
     * the grouped keys and the flat literals. A grouped key without a `.` throws, and
     * the transaction is rolled back.
     */
    method Save(grouped: seq<string>, literals: seq<string>, env: ScanEnv) returns (ok: bool)
      modifies this
      ensures ok <==> ScanTriples(grouped, literals).Some?
      ensures ok ==> Some(rows) == ScanResult(old(rows), grouped, literals, env)
      ensures !ok ==> rows == old(rows)
    {
      var snapshot := rows;
      SoftDeleteAll();
      var marked := rows;
      ok := ReconcileGrouped(grouped, env);
      if !ok {
        rows := snapshot;
        return;
      }
      ReconcileLiterals(literals, env);
      ReconcileAllAppend(marked, ParseAll(grouped).value, FlatTriples(literals), env);
    }
  }
}
