/** The names under which queries are indexed and models are invalidated
    (src/nova/cache/queryset_cache.py:150-214, 349-359 and 521-540,
    src/nova/cache/invalidation.py:59-70).  Letters are taken to be ASCII. */
module ModelNames {
  import opened CacheTypes

  function LowerChar(c: char): char {
    if 'A' <= c <= 'Z' then (c as int + 32) as char else c
  }

  function Lower(s: string): (r: string)
    ensures |r| == |s| && forall i :: 0 <= i < |s| ==> r[i] == LowerChar(s[i])
  {
    if s == "" then "" else [LowerChar(s[0])] + Lower(s[1..])
  }

  predicate Space(c: char) {
    9 <= c as int <= 13 || 28 <= c as int <= 32
  }

  function StripLeft(s: string): string {
    if s != "" && Space(s[0]) then StripLeft(s[1..]) else s
  }

  function StripRight(s: string): string {
    if s != "" && Space(s[|s| - 1]) then StripRight(s[..|s| - 1]) else s
  }

  function Normalized(name: string): string {
    Lower(StripRight(StripLeft(name)))
  }

  /** `rpartition(".")[2]`: what follows the last dot, or all of it. */
  function AfterLastDot(s: string): string {
    if s == "" || s[|s| - 1] == '.' then "" else AfterLastDot(s[..|s| - 1]) + [s[|s| - 1]]
  }

  /** `_short_model_name`. */
  function ShortModelName(name: string): string {
    AfterLastDot(Normalized(name))
  }

  /** `_normalize_model_names`. */
  function NormalizeModelNames(name: string): set<string> {
    var n := Normalized(name);
    if n == "" then {}
    else if '.' in n && AfterLastDot(n) != "" then {n, AfterLastDot(n)}
    else {n}
  }

  function FullName(app: string, model: string): string {
    if app == "" then model else app + "." + model
  }

  /** `_model_identifiers`: the model name is lowered, the app label is not. */
  function ModelIdentifiers(app: string, model: string): set<string> {
    {Lower(model), FullName(app, Lower(model))}
  }

  /** Names of models, in any case: no dot, no space, not empty. */
  predicate ModelName(m: string) {
    m != "" && forall i :: 0 <= i < |m| ==> m[i] != '.' && !Space(m[i])
  }

  /** The same letter, capital or small. */
  predicate SameLetter(a: char, b: char) {
    || a == b
    || ('A' <= a <= 'Z' && b as int == a as int - 'A' as int + 'a' as int)
    || ('A' <= b <= 'Z' && a as int == b as int - 'A' as int + 'a' as int)
  }

  /** The same text but for capitals. */
  ghost predicate SameText(a: string, b: string) {
    |a| == |b| && forall i :: 0 <= i < |a| ==> SameLetter(a[i], b[i])
  }

  lemma {:induction false} LowerIgnoresCase(a: string, b: string)
    ensures Lower(a) == Lower(b) <==> SameText(a, b)
  {
    assert forall i :: 0 <= i < |a| && i < |b| ==> (LowerChar(a[i]) == LowerChar(b[i]) <==> SameLetter(a[i], b[i]));
    if SameText(a, b) {
      assert forall i :: 0 <= i < |a| ==> Lower(a)[i] == LowerChar(a[i]) == LowerChar(b[i]) == Lower(b)[i];
    } else if |a| == |b| {
      var i :| 0 <= i < |a| && !SameLetter(a[i], b[i]);
      assert Lower(a)[i] != Lower(b)[i];
    }
  }

  ghost predicate Blank(s: string) {
    forall i :: 0 <= i < |s| ==> Space(s[i])
  }

  lemma {:induction false} StripLeftBlank(l: string, s: string)
    requires Blank(l)
    ensures StripLeft(l + s) == StripLeft(s)
  {
    if l == "" {
      assert l + s == s;
    } else {
      StripLeftBlank(l[1..], s);
      assert (l + s)[1..] == l[1..] + s;
    }
  }

  lemma {:induction false} StripRightBlank(s: string, r: string)
    requires Blank(r)
    ensures StripRight(s + r) == StripRight(s)
  {
    if r == "" {
      assert s + r == s;
    } else {
      StripRightBlank(s, r[..|r| - 1]);
      assert (s + r)[..|s + r| - 1] == s + r[..|r| - 1];
    }
  }

  lemma {:induction false} StripLeftBefore(s: string, r: string)
    requires Blank(r)
    ensures StripLeft(s + r) == if Blank(s) then "" else StripLeft(s) + r
    ensures Blank(s) ==> StripLeft(s) == ""
  {
    if Blank(s) {
      StripLeftBlank(s, r);
      StripLeftBlank(r, "");
      StripLeftBlank(s, "");
      assert r + "" == r && s + "" == s;
    } else if Space(s[0]) {
      assert (s + r)[1..] == s[1..] + r;
      assert !Blank(s[1..]) by {
        var i :| 0 <= i < |s| && !Space(s[i]);
        assert s[1..][i - 1] == s[i];
      }
      StripLeftBefore(s[1..], r);
    }
  }

  /** Blanks around a name do not matter. */
  lemma {:induction false} BlanksAreIgnored(l: string, name: string, r: string)
    requires Blank(l) && Blank(r)
    ensures Normalized(l + name + r) == Normalized(name)
    ensures NormalizeModelNames(l + name + r) == NormalizeModelNames(name)
    ensures ShortModelName(l + name + r) == ShortModelName(name)
  {
    hide StripLeft, StripRight, Lower;
    assert l + name + r == l + (name + r);
    StripLeftBlank(l, name + r);
    StripLeftBefore(name, r);
    StripRightBlank(StripLeft(name), r);
  }

  lemma {:induction false} StripRightBlankMeans(s: string)
    ensures StripRight(s) == "" <==> Blank(s)
  {
    if s != "" {
      StripRightBlankMeans(s[..|s| - 1]);
      if Space(s[|s| - 1]) && Blank(s[..|s| - 1]) {
        assert forall i :: 0 <= i < |s| - 1 ==> s[i] == s[..|s| - 1][i];
      }
    }
  }

  /** A blank target reaches nothing; every other one reaches something, and never the
      empty name. */
  lemma {:induction false} OnlyBlanksReachNothing(name: string)
    ensures NormalizeModelNames(name) == {} <==> Blank(name)
    ensures "" !in NormalizeModelNames(name)
  {
    StripLeftBefore(name, "");
    assert name + "" == name && StripLeft(name) + "" == StripLeft(name);
    StripRightBlankMeans(StripLeft(name));
    hide StripRight;
    if !Blank(name) { StripLeftBlankMeans(name); }
  }

  lemma {:induction false} StripLeftBlankMeans(s: string)
    requires !Blank(s)
    ensures !Blank(StripLeft(s))
  {
    if Space(s[0]) {
      assert !Blank(s[1..]) by {
        var i :| 0 <= i < |s| && !Space(s[i]);
        assert s[1..][i - 1] == s[i];
      }
      StripLeftBlankMeans(s[1..]);
    }
  }

  // ----- text -----

  lemma {:induction false} LowerConcat(a: string, b: string)
    ensures Lower(a + b) == Lower(a) + Lower(b)
  {
  }

  lemma {:induction false} StripLeftKeepsEnd(a: string, b: string)
    requires b != "" && !Space(b[0])
    ensures exists i :: 0 <= i <= |a| && StripLeft(a + b) == a[i..] + b
  {
    if a == "" || !Space(a[0]) {
      assert a[0..] + b == a + b;
    } else {
      StripLeftKeepsEnd(a[1..], b);
      assert (a + b)[1..] == a[1..] + b;
      var i :| 0 <= i <= |a[1..]| && StripLeft(a[1..] + b) == a[1..][i..] + b;
      assert a[1..][i..] == a[i + 1..];
    }
  }

  lemma {:induction false} AfterDot(a: string, m: string)
    requires forall i :: 0 <= i < |m| ==> m[i] != '.'
    ensures AfterLastDot(a + "." + m) == m
  {
    var s := a + "." + m;
    if m != "" {
      AfterDot(a, m[..|m| - 1]);
      assert s[..|s| - 1] == a + "." + m[..|m| - 1];
      assert m == m[..|m| - 1] + [m[|m| - 1]];
    }
  }

  lemma {:induction false} NoDot(m: string)
    requires forall i :: 0 <= i < |m| ==> m[i] != '.'
    ensures AfterLastDot(m) == m
  {
    if m != "" {
      NoDot(m[..|m| - 1]);
      assert m == m[..|m| - 1] + [m[|m| - 1]];
    }
  }

  lemma {:induction false} NothingToStrip(m: string)
    requires ModelName(m)
    ensures StripLeft(m) == m && StripRight(m) == m
  {
  }

  lemma {:induction false} EndsInModel(a: string, m: string)
    requires ModelName(m)
    ensures StripRight(a + "." + m) == a + "." + m
    ensures Lower(a + "." + m) == Lower(a) + "." + Lower(m)
  {
    hide Lower;
    var s := a + "." + m;
    assert s[|s| - 1] == m[|m| - 1];
    LowerConcat(a + ".", m);
    LowerConcat(a, ".");
    LowerDot();
  }

  lemma {:induction false} LowerDot()
    ensures Lower(".") == "."
  {
  }

  /** Normalizing keeps the model part, whatever the app label looks like. */
  lemma {:induction false} NormalizedFullName(app: string, m: string)
    requires ModelName(m)
    ensures Normalized(FullName(app, m)) == Lower(m) || EndsInDotted(Normalized(FullName(app, m)), Lower(m))
  {
    if app == "" {
      NothingToStrip(m);
    } else {
      StripLeftKeepsEnd(app, "." + m);
      hide StripLeft, StripRight, Lower, ModelName;
      assert app + ("." + m) == app + "." + m;
      var i :| 0 <= i <= |app| && StripLeft(app + ("." + m)) == app[i..] + ("." + m);
      assert app[i..] + ("." + m) == app[i..] + "." + m;
      EndsInModel(app[i..], m);
      assert EndsInDotted(Lower(app[i..]) + "." + Lower(m), Lower(m));
    }
  }

  ghost predicate EndsInDotted(s: string, m: string) {
    exists a :: s == a + "." + m
  }

  /** Models have different full names unless app label and model name agree. */
  lemma {:induction false} FullNamesAreDistinct(app: string, m: string, app2: string, m2: string)
    requires ModelName(m) && ModelName(m2)
    ensures FullName(app, m) == FullName(app2, m2) <==> app == app2 && m == m2
  {
    hide ModelName;
    FullNameEnds(app, m);
    FullNameEnds(app2, m2);
    HasDot(app, m);
    HasDot(app2, m2);
    if FullName(app, m) == FullName(app2, m2) && app != "" {
      assert (app + "." + m)[..|app|] == app && (app2 + "." + m2)[..|app2|] == app2;
    }
  }

  lemma {:induction false} HasDot(app: string, m: string)
    requires ModelName(m)
    ensures '.' in FullName(app, m) <==> app != ""
  {
    if app != "" { assert (app + "." + m)[|app|] == '.'; }
  }

  lemma {:induction false} FullNameEnds(app: string, m: string)
    requires ModelName(m)
    ensures AfterLastDot(FullName(app, m)) == m
  {
    if app == "" { NoDot(m); } else { AfterDot(app, m); }
  }

  // ----- what invalidation reaches -----

  lemma {:induction false} LowerHasNoDot(m: string)
    requires ModelName(m)
    ensures Lower(m) != "" && forall i :: 0 <= i < |Lower(m)| ==> Lower(m)[i] != '.'
  {
    forall i | 0 <= i < |m| ensures Lower(m)[i] != '.' {
      assert Lower(m)[i] == LowerChar(m[i]);
    }
  }

  /** Whoever names a model, in whatever case and under whatever app label, invalidates under
      its lowered short name. */
  lemma {:induction false} ShortNameOfSignal(app: string, m: string)
    requires ModelName(m)
    ensures ShortModelName(FullName(app, m)) == Lower(m) && Lower(m) in NormalizeModelNames(FullName(app, m))
    ensures forall n :: n in NormalizeModelNames(FullName(app, m)) && n != Lower(m) ==>
              '.' in n && AfterLastDot(n) == Lower(m)
  {
    hide Normalized, Lower;
    NormalizedFullName(app, m);
    LowerHasNoDot(m);
    var n := Normalized(FullName(app, m));
    if n == Lower(m) {
      NoDot(Lower(m));
    } else {
      var a :| n == a + "." + Lower(m);
      AfterDot(a, Lower(m));
      assert n[|a|] == '.';
    }
  }

  /** The index entry of a query on `other` is found by an invalidation of `m` exactly when
      the two have the same short name but for capitals: never missed for the model itself,
      even when the app label has capitals, and shared between apps that use one model name. */
  lemma {:induction false} SignalsFindQueries(app: string, m: string, otherApp: string, other: string)
    requires ModelName(m) && ModelName(other)
    ensures NormalizeModelNames(FullName(app, m)) * ModelIdentifiers(otherApp, other) != {} <==> SameText(m, other)
  {
    hide Normalized, NormalizeModelNames, FullName, AfterLastDot, Lower, SameText;
    ShortNameOfSignal(app, m);
    LowerIgnoresCase(m, other);
    LowerHasNoDot(m);
    if Lower(m) == Lower(other) {
      assert Lower(m) in NormalizeModelNames(FullName(app, m)) * ModelIdentifiers(otherApp, other);
    }
    forall n | n in NormalizeModelNames(FullName(app, m)) && n in ModelIdentifiers(otherApp, other)
      ensures Lower(m) == Lower(other)
    {
      IdentifierShort(otherApp, other, n);
      if n == Lower(m) { NoDot(Lower(m)); }
    }
  }

  lemma {:induction false} IdentifierShort(app: string, m: string, n: string)
    requires ModelName(m) && n in ModelIdentifiers(app, m)
    ensures AfterLastDot(n) == Lower(m)
  {
    hide AfterLastDot, Lower;
    LowerHasNoDot(m);
    NoDot(Lower(m));
    AfterDot(app, Lower(m));
  }

  /** And it rotates a scope that every query on the model folds into its key, on that
      database as on all. */
  lemma {:induction false} SignalsRotateScopes(app: string, m: string, db: string, other: string, q: Query)
    requires ModelName(m) && SameText(m, other) && Lower(other) in q.models && (db == q.db || db == "*")
    ensures Scope(ShortModelName(FullName(app, m)), db) in Scopes(q)
  {
    ShortNameOfSignal(app, m);
    LowerIgnoresCase(m, other);
  }
}
