/** Which models are subscribed for invalidation, and which models a prefetch can make a
    query depend on (src/nova/cache/dependencies.py:37-63, 78-88 and 151-169,
    src/nova/cache/invalidation.py:22-112). */
module RelationGraph {
  import opened Graphs

  type Model = Node

  /** What an attribute of a relation refers to: nothing, a model class, or something
      else (an unresolved name, a generic relation). */
  datatype Ref = Nothing | Something | To(model: Model)

  datatype Relation = Relation(name: string, accessor: string, hidden: bool, target: Ref, through: Ref)

  /** The model classes with the fields that introspection lists, in order. */
  type Registry = map<Model, seq<Relation>>

  predicate Refers(reg: Registry, r: Ref) {
    r.To? ==> r.model in reg
  }

  predicate Sound(reg: Registry) {
    forall m :: m in reg ==> forall i :: 0 <= i < |reg[m]| ==>
      Refers(reg, reg[m][i].target) && Refers(reg, reg[m][i].through)
  }

  function Models(r: Ref): set<Model> {
    if r.To? then {r.model} else {}
  }

  function Targets(rs: seq<Relation>): set<Model> {
    if rs == [] then {}
    else Targets(rs[..|rs| - 1]) + Models(rs[|rs| - 1].target) + Models(rs[|rs| - 1].through)
  }

  function Throughs(rs: seq<Relation>): set<Model> {
    if rs == [] then {} else Throughs(rs[..|rs| - 1]) + Models(rs[|rs| - 1].through)
  }

  /** Relations and through models as the edges of a graph. */
  function Related(reg: Registry): Graph {
    map m | m in reg :: Targets(reg[m])
  }

  lemma {:induction false} TargetsMean(rs: seq<Relation>, x: Model)
    ensures x in Targets(rs) <==> exists i :: 0 <= i < |rs| && (rs[i].target == To(x) || rs[i].through == To(x))
    ensures x in Throughs(rs) <==> exists i :: 0 <= i < |rs| && rs[i].through == To(x)
    ensures Throughs(rs) <= Targets(rs)
  {
    if rs != [] {
      var rest, last := rs[..|rs| - 1], rs[|rs| - 1];
      TargetsMean(rest, x);
      if i :| 0 <= i < |rs| && (rs[i].target == To(x) || rs[i].through == To(x)) {
        if i < |rest| { assert rest[i] == rs[i]; }
      }
      if i :| 0 <= i < |rs| && rs[i].through == To(x) {
        if i < |rest| { assert rest[i] == rs[i]; }
      }
    }
  }

  lemma {:induction false} SoundIsWellFormed(reg: Registry)
    requires Sound(reg)
    ensures WellFormed(Related(reg))
  {
    forall m, x | m in reg && x in Targets(reg[m]) ensures x in reg {
      TargetsMean(reg[m], x);
    }
  }

  /** The models that relations lead to from `m`, `m` included. */
  ghost function Connected(reg: Registry, m: Model): set<Model> {
    set y | y in reg && Reach(Related(reg), m, y)
  }

  ghost function ThroughsOf(reg: Registry, models: set<Model>): set<Model> {
    set m, t | m in models && m in reg && t in Throughs(reg[m]) :: t
  }

  // ----- related_model_graph -----

  /** Everything found so far is reachable, and every edge out of `seen` is followed or
      still pending. */
  ghost predicate Worklist(reg: Registry, root: Model, seen: set<Model>, pending: seq<Model>, throughs: set<Model>) {
    && (root in seen || root in pending)
    && (forall m :: m in seen || m in pending ==> m == root || m in Connected(reg, root))
    && (forall m, t :: m in seen && m in reg && t in Targets(reg[m]) ==> t in seen || t in pending)
    && throughs == ThroughsOf(reg, seen)
  }

  lemma {:induction false} Visited(reg: Registry, root: Model, seen: set<Model>, pending: seq<Model>,
                                   throughs: set<Model>, model: Model, found: seq<Model>)
    requires Sound(reg) && Worklist(reg, root, seen, pending + [model], throughs)
    requires forall x :: x in found <==> model in reg && x in Targets(reg[model])
    ensures Worklist(reg, root, seen + {model}, pending + found,
                     throughs + if model in reg then Throughs(reg[model]) else {})
  {
    hide Targets, Throughs, Sound, Reach, WellFormed;
    SoundIsWellFormed(reg);
    assert model in pending + [model];
    forall x | x in found ensures x in Connected(reg, root) {
      ConnectedStep(reg, root, model, x);
    }
  }

  lemma {:induction false} ConnectedStep(reg: Registry, root: Model, m: Model, x: Model)
    requires Sound(reg) && m in reg && (m == root || m in Connected(reg, root)) && x in Targets(reg[m])
    ensures x in Connected(reg, root)
  {
    hide Targets, Sound, Reach;
    SoundIsWellFormed(reg);
    var g := Related(reg);
    assert g[m] <= g.Keys;
    if m == root { ReachEdge(g, m, x); } else { ReachAppend(g, root, m, x); }
  }

  lemma {:induction false} SeenBefore(reg: Registry, root: Model, seen: set<Model>, pending: seq<Model>,
                                      throughs: set<Model>, model: Model)
    requires Worklist(reg, root, seen, pending + [model], throughs) && model in seen
    ensures Worklist(reg, root, seen, pending, throughs)
  {
    hide Targets, Throughs, Reach;
  }

  lemma {:induction false} NothingPending(reg: Registry, root: Model, seen: set<Model>, throughs: set<Model>)
    requires Sound(reg) && Worklist(reg, root, seen, [], throughs) && root in reg
    ensures seen == Connected(reg, root)
  {
    hide Targets, Throughs, Reach, Sound;
    SoundIsWellFormed(reg);
    var g := Related(reg);
    ReachSelf(g, root);
    forall y | y in Connected(reg, root) ensures y in seen {
      ForwardClosed(g, seen, root, y);
    }
  }

  /** `related_model_graph`: exactly the models reachable by relations and through
      models, and exactly the through models among their relations. */
  method RelatedModelGraph(reg: Registry, root: Model) returns (models: set<Model>, throughs: set<Model>)
    requires Sound(reg)
    ensures root in reg ==> models == Connected(reg, root)
    ensures root !in reg ==> models == {root}
    ensures throughs == ThroughsOf(reg, models)
  {
    hide Targets, Throughs, Sound, Worklist, ThroughsOf;
    var pending := [root];
    models, throughs := {}, {};
    Starting(reg, root);
    while pending != []
      invariant Worklist(reg, root, models, pending, throughs)
      decreases (reg.Keys + {root}) - models, |pending|
    {
      var rest, model := pending[..|pending| - 1], pending[|pending| - 1];
      assert pending == rest + [model];
      if model in models {
        SeenBefore(reg, root, models, rest, throughs, model);
        pending := rest;
      } else {
        InRegistry(reg, root, models, rest, throughs, model);
        var found, through := [], {};
        if model in reg {
          found, through := FollowRelations(reg[model]);
        }
        Visited(reg, root, models, rest, throughs, model, found);
        models, pending, throughs := models + {model}, rest + found, throughs + through;
      }
    }
    Finished(reg, root, models, throughs);
  }

  lemma {:induction false} Starting(reg: Registry, root: Model)
    ensures Worklist(reg, root, {}, [root], {})
  {
  }

  lemma {:induction false} InRegistry(reg: Registry, root: Model, seen: set<Model>, pending: seq<Model>,
                                      throughs: set<Model>, model: Model)
    requires Worklist(reg, root, seen, pending + [model], throughs)
    ensures model in reg.Keys + {root}
  {
    assert model in pending + [model];
  }

  lemma {:induction false} Finished(reg: Registry, root: Model, seen: set<Model>, throughs: set<Model>)
    requires Sound(reg) && Worklist(reg, root, seen, [], throughs)
    ensures seen == if root in reg then Connected(reg, root) else {root}
    ensures throughs == ThroughsOf(reg, seen)
  {
    if root in reg {
      NothingPending(reg, root, seen, throughs);
    } else {
      OnlyItself(reg, root);
    }
  }

  lemma {:induction false} OnlyItself(reg: Registry, root: Model)
    requires root !in reg
    ensures Connected(reg, root) == {}
  {
    hide Targets, Throughs;
    forall y | y in Connected(reg, root) ensures false {
      ReachInGraph(Related(reg), root, y);
    }
  }

  /** The loop over one model's relations: what it pushes, and the through models. */
  method FollowRelations(rs: seq<Relation>) returns (found: seq<Model>, throughs: set<Model>)
    ensures forall x :: x in found <==> x in Targets(rs)
    ensures throughs == Throughs(rs)
  {
    found, throughs := [], {};
    assert rs[..0] == [];
    for k := 0 to |rs|
      invariant forall x :: x in found <==> x in Targets(rs[..k])
      invariant throughs == Throughs(rs[..k])
    {
      assert rs[..k + 1][..k] == rs[..k];
      if rs[k].target.To? {
        found := found + [rs[k].target.model];
      }
      if rs[k].through.To? {
        found := found + [rs[k].through.model];
        throughs := throughs + {rs[k].through.model};
      }
    }
    assert rs[..|rs|] == rs;
  }

  /** The through models are among the connected models, so they are subscribed twice:
      for their own saves and deletes, and for changes of the relation. */
  lemma {:induction false} ThroughsAreConnected(reg: Registry, root: Model)
    requires Sound(reg)
    ensures ThroughsOf(reg, Connected(reg, root)) <= Connected(reg, root)
  {
    forall m, t | m in Connected(reg, root) && m in reg && t in Throughs(reg[m]) ensures t in Connected(reg, root) {
      TargetsMean(reg[m], t);
      ConnectedStep(reg, root, m, t);
    }
  }

  lemma {:induction false} ConnectedNests(reg: Registry, root: Model, m: Model)
    requires m in Connected(reg, root)
    ensures Connected(reg, m) <= Connected(reg, root)
  {
    hide Targets, Throughs, Reach;
    forall y | y in Connected(reg, m) ensures y in Connected(reg, root) {
      ReachTransitive(Related(reg), root, m, y);
    }
  }

  // ----- the prefetch walk of query_dependencies -----

  datatype Found<T> = Ok(value: T) | Uncacheable

  /** What a part of a lookup stands for: the first field of that name or, if there is none,
      the first relation whose reverse accessor is visible and has that name. */
  ghost predicate Resolves(rs: seq<Relation>, part: string, x: Relation) {
    exists i :: 0 <= i < |rs| && rs[i] == x && ResolvesAt(rs, part, i)
  }

  ghost predicate ResolvesAt(rs: seq<Relation>, part: string, i: nat)
    requires i < |rs|
  {
    || (rs[i].name == part && forall j :: 0 <= j < i ==> rs[j].name != part)
    || (&& (forall j :: 0 <= j < |rs| ==> rs[j].name != part)
        && Accessible(rs[i], part) && forall j :: 0 <= j < i ==> !Accessible(rs[j], part))
  }

  predicate Accessible(x: Relation, part: string) {
    !x.hidden && x.accessor == part
  }

  /** `_relation_field` finds what the part stands for, and fails if it stands for nothing. */
  function RelationField(rs: seq<Relation>, part: string): (r: Found<Relation>)
    ensures r.Ok? ==> Resolves(rs, part, r.value)
    ensures r.Uncacheable? ==> forall x :: !Resolves(rs, part, x)
  {
    var named := FirstNamed(rs, part, 0);
    if named.Ok? then named else FirstAccessor(rs, part, 0)
  }

  function FirstNamed(rs: seq<Relation>, part: string, from: nat): (r: Found<Relation>)
    requires from <= |rs| && forall j :: 0 <= j < from ==> rs[j].name != part
    ensures r.Ok? ==> exists i :: 0 <= i < |rs| && rs[i] == r.value && rs[i].name == part && ResolvesAt(rs, part, i)
    ensures r.Uncacheable? ==> forall j :: 0 <= j < |rs| ==> rs[j].name != part
    decreases |rs| - from
  {
    if from == |rs| then Uncacheable
    else if rs[from].name == part then assert ResolvesAt(rs, part, from); Ok(rs[from])
    else FirstNamed(rs, part, from + 1)
  }

  function FirstAccessor(rs: seq<Relation>, part: string, from: nat): (r: Found<Relation>)
    requires from <= |rs| && (forall j :: 0 <= j < |rs| ==> rs[j].name != part)
    requires forall j :: 0 <= j < from ==> !Accessible(rs[j], part)
    ensures r.Ok? ==> exists i :: 0 <= i < |rs| && rs[i] == r.value && ResolvesAt(rs, part, i)
    ensures r.Uncacheable? ==> forall j :: 0 <= j < |rs| ==> !Accessible(rs[j], part)
    decreases |rs| - from
  {
    if from == |rs| then Uncacheable
    else if Accessible(rs[from], part) then assert ResolvesAt(rs, part, from); Ok(rs[from])
    else FirstAccessor(rs, part, from + 1)
  }

  lemma {:induction false} ResolvesOnce(rs: seq<Relation>, part: string, x: Relation, y: Relation)
    requires Resolves(rs, part, x) && Resolves(rs, part, y)
    ensures x == y
  {
    var i :| 0 <= i < |rs| && rs[i] == x && ResolvesAt(rs, part, i);
    var j :| 0 <= j < |rs| && rs[j] == y && ResolvesAt(rs, part, j);
    assert i == j;
  }

  /** The model at which a path of relations arrives. */
  ghost function End(from: Model, path: seq<Relation>): Model {
    if path != [] && path[|path| - 1].target.To? then path[|path| - 1].target.model else from
  }

  /** The lookup crosses these relations: each is what its part stands for at the model
      reached so far, leads to a model whose managers are known to hide no joins
      (`ordinary`), and has no unresolved through model. */
  ghost predicate Crosses(reg: Registry, ordinary: set<Model>, from: Model, parts: seq<string>, path: seq<Relation>) {
    |path| == |parts| && forall k :: 0 <= k < |path| ==> CrossesAt(reg, ordinary, from, parts, path, k)
  }

  ghost predicate CrossesAt(reg: Registry, ordinary: set<Model>, from: Model, parts: seq<string>,
                            path: seq<Relation>, k: nat)
    requires k < |path| && k < |parts|
  {
    && End(from, path[..k]) in reg && Resolves(reg[End(from, path[..k])], parts[k], path[k])
    && path[k].target.To? && path[k].target.model in ordinary && !path[k].through.Something?
  }

  ghost predicate Crossable(reg: Registry, ordinary: set<Model>, from: Model, parts: seq<string>) {
    exists path :: Crosses(reg, ordinary, from, parts, path)
  }

  /** The models that a path of relations adds. */
  ghost predicate Adds(path: seq<Relation>, m: Model) {
    exists k :: 0 <= k < |path| && (path[k].target == To(m) || path[k].through == To(m))
  }

  lemma {:induction false} AddsOneMore(path: seq<Relation>, x: Relation, m: Model)
    ensures Adds(path + [x], m) <==> Adds(path, m) || x.target == To(m) || x.through == To(m)
  {
    var q := path + [x];
    if k :| 0 <= k < |path| && (path[k].target == To(m) || path[k].through == To(m)) {
      assert q[k] == path[k];
    }
    if x.target == To(m) || x.through == To(m) { assert q[|path|] == x; }
  }

  lemma {:induction false} CrossesOneMore(reg: Registry, ordinary: set<Model>, from: Model, parts: seq<string>, k: nat,
                                          path: seq<Relation>, x: Relation)
    requires k < |parts| && Crosses(reg, ordinary, from, parts[..k], path)
    requires CrossesAt(reg, ordinary, from, parts, path + [x], k)
    ensures Crosses(reg, ordinary, from, parts[..k + 1], path + [x])
  {
    hide Resolves, End;
    var q, first := path + [x], parts[..k + 1];
    forall j | 0 <= j <= k ensures CrossesAt(reg, ordinary, from, first, q, j) {
      assert q[..j] == if j < k then path[..j] else path;
      if j < k { assert CrossesAt(reg, ordinary, from, parts[..k], path, j); }
    }
  }

  /** There is no other way through the same parts. */
  lemma {:induction false} CrossesOnce(reg: Registry, ordinary: set<Model>, from: Model, parts: seq<string>, k: nat,
                                       path: seq<Relation>, whole: seq<Relation>)
    requires k <= |parts| && Crosses(reg, ordinary, from, parts[..k], path) && Crosses(reg, ordinary, from, parts, whole)
    ensures path == whole[..k]
  {
    hide Resolves, End;
    if k > 0 {
      var shorter, first := path[..k - 1], parts[..k - 1];
      forall j | 0 <= j < k - 1 ensures CrossesAt(reg, ordinary, from, first, shorter, j) {
        assert CrossesAt(reg, ordinary, from, parts[..k], path, j);
        assert shorter[..j] == path[..j];
      }
      CrossesOnce(reg, ordinary, from, parts, k - 1, shorter, whole);
      assert CrossesAt(reg, ordinary, from, parts[..k], path, k - 1) && CrossesAt(reg, ordinary, from, parts, whole, k - 1);
      ResolvesOnce(reg[End(from, shorter)], parts[k - 1], path[k - 1], whole[k - 1]);
    }
  }

  /** The loop over the parts of one lookup. */
  method FollowLookup(reg: Registry, ordinary: set<Model>, model: Model, parts: seq<string>)
      returns (r: Found<set<Model>>, ghost path: seq<Relation>)
    requires Sound(reg) && model in reg
    ensures r.Uncacheable? ==> forall p :: !Crosses(reg, ordinary, model, parts, p)
    ensures r.Ok? ==> Crosses(reg, ordinary, model, parts, path) && forall m :: m in r.value <==> Adds(path, m)
  {
    hide Sound, Resolves, Adds, Crosses;
    var current, added := model, {};
    path := [];
    NoParts(reg, ordinary, model, parts[..0]);
    for k := 0 to |parts|
      invariant current in reg && current == End(model, path) && |path| == k
      invariant Crosses(reg, ordinary, model, parts[..k], path)
      invariant forall m :: m in added <==> Adds(path, m)
    {
      FieldIsSound(reg, current, parts[k]);
      var field := RelationField(reg[current], parts[k]);
      if field.Uncacheable? || !field.value.target.To? || field.value.target.model !in ordinary
         || field.value.through.Something?
      {
        forall p ensures !Crosses(reg, ordinary, model, parts, p) {
          StopsHere(reg, ordinary, model, parts, k, path, p);
        }
        return Uncacheable, path;
      }
      assert (path + [field.value])[..k] == path;
      CrossesOneMore(reg, ordinary, model, parts, k, path, field.value);
      forall m ensures Adds(path + [field.value], m) <==>
                m in added || field.value.target == To(m) || field.value.through == To(m) {
        AddsOneMore(path, field.value, m);
      }
      added := added + Models(field.value.through) + {field.value.target.model};
      current, path := field.value.target.model, path + [field.value];
    }
    assert parts[..|parts|] == parts;
    r := Ok(added);
  }

  lemma {:induction false} NoParts(reg: Registry, ordinary: set<Model>, from: Model, parts: seq<string>)
    requires parts == []
    ensures Crosses(reg, ordinary, from, parts, []) && forall m :: !Adds([], m)
  {
  }

  /** Where one part leads nowhere, no path crosses all of them. */
  lemma {:induction false} StopsHere(reg: Registry, ordinary: set<Model>, from: Model, parts: seq<string>, k: nat,
                                     path: seq<Relation>, whole: seq<Relation>)
    requires k < |parts| && Crosses(reg, ordinary, from, parts[..k], path) && End(from, path) in reg
    requires var f := RelationField(reg[End(from, path)], parts[k]);
             f.Uncacheable? || !f.value.target.To? || f.value.target.model !in ordinary || f.value.through.Something?
    ensures !Crosses(reg, ordinary, from, parts, whole)
  {
    hide Resolves, End;
    if Crosses(reg, ordinary, from, parts, whole) {
      CrossesOnce(reg, ordinary, from, parts, k, path, whole);
      assert CrossesAt(reg, ordinary, from, parts, whole, k);
      var f := RelationField(reg[End(from, path)], parts[k]);
      if f.Ok? { ResolvesOnce(reg[End(from, path)], parts[k], whole[k], f.value); }
    }
  }

  /** The prefetch loops of `query_dependencies`.  The query is accepted if and only if
      every lookup crosses a path of relations, and the models collected are the query's own
      and, of every relation crossed, the target and the through model. */
  method PrefetchDependencies(reg: Registry, ordinary: set<Model>, model: Model, lookups: seq<seq<string>>)
      returns (r: Found<set<Model>>)
    requires Sound(reg) && model in reg
    ensures r.Ok? <==> forall i :: 0 <= i < |lookups| ==> Crossable(reg, ordinary, model, lookups[i])
    ensures r.Ok? ==> forall m :: m in r.value <==>
              m == model
              || exists i, path :: 0 <= i < |lookups| && Crosses(reg, ordinary, model, lookups[i], path) && Adds(path, m)
  {
    hide Sound, Crosses, Adds;
    var models := {model};
    ghost var paths: seq<seq<Relation>> := [];
    for i := 0 to |lookups|
      invariant |paths| == i && forall j :: 0 <= j < i ==> Crosses(reg, ordinary, model, lookups[j], paths[j])
      invariant forall m :: m in models <==> m == model || exists j :: 0 <= j < i && Adds(paths[j], m)
    {
      var added, path := FollowLookup(reg, ordinary, model, lookups[i]);
      if added.Uncacheable? {
        assert !Crossable(reg, ordinary, model, lookups[i]);
        return Uncacheable;
      }
      models, paths := models + added.value, paths + [path];
    }
    r := Ok(models);
    forall i | 0 <= i < |lookups| ensures Crossable(reg, ordinary, model, lookups[i]) {
      assert Crosses(reg, ordinary, model, lookups[i], paths[i]);
    }
    forall m | m != model ensures m in models <==>
        exists i, path :: 0 <= i < |lookups| && Crosses(reg, ordinary, model, lookups[i], path) && Adds(path, m)
    {
      if i, path :| 0 <= i < |lookups| && Crosses(reg, ordinary, model, lookups[i], path) && Adds(path, m) {
        OnlyPath(reg, ordinary, model, lookups[i], path, paths[i]);
      }
    }
  }

  lemma {:induction false} OnlyPath(reg: Registry, ordinary: set<Model>, from: Model, parts: seq<string>,
                                    p: seq<Relation>, q: seq<Relation>)
    requires Crosses(reg, ordinary, from, parts, p) && Crosses(reg, ordinary, from, parts, q)
    ensures p == q
  {
    assert parts[..|parts|] == parts;
    CrossesOnce(reg, ordinary, from, parts, |parts|, p, q);
  }

  lemma {:induction false} FieldIsSound(reg: Registry, m: Model, part: string)
    requires Sound(reg) && m in reg
    ensures var f := RelationField(reg[m], part); f.Ok? ==> Refers(reg, f.value.target) && Refers(reg, f.value.through)
  {
  }

  lemma {:induction false} ResolvedIsRelated(reg: Registry, m: Model, part: string, x: Relation)
    requires m in reg && Resolves(reg[m], part, x)
    ensures Models(x.target) + Models(x.through) <= Targets(reg[m]) && Models(x.through) <= Throughs(reg[m])
  {
    var i :| 0 <= i < |reg[m]| && reg[m][i] == x;
    if x.target.To? { TargetsMean(reg[m], x.target.model); }
    if x.through.To? { TargetsMean(reg[m], x.through.model); }
  }

  /** Wherever the first `n` relations of a path arrive is connected to where it begins, and
      so is every model that relation `n` adds. */
  lemma {:induction false} PathStaysConnected(reg: Registry, ordinary: set<Model>, from: Model, parts: seq<string>,
                                              path: seq<Relation>, n: nat)
    requires Sound(reg) && from in reg && Crosses(reg, ordinary, from, parts, path) && n <= |path|
    ensures End(from, path[..n]) in Connected(reg, from)
    ensures n < |path| ==> Models(path[n].target) + Models(path[n].through) <= Connected(reg, from)
    ensures n < |path| ==> Models(path[n].through) <= ThroughsOf(reg, Connected(reg, from))
    decreases n
  {
    hide Sound, Targets, Throughs, Connected, ThroughsOf, Resolves;
    if n == 0 {
      SelfConnected(reg, from);
    } else {
      PathStaysConnected(reg, ordinary, from, parts, path, n - 1);
      assert CrossesAt(reg, ordinary, from, parts, path, n - 1);
      assert path[..n][|path[..n]| - 1] == path[n - 1];
    }
    if n < |path| {
      assert CrossesAt(reg, ordinary, from, parts, path, n);
      RelationStaysConnected(reg, from, End(from, path[..n]), parts[n], path[n]);
    }
  }

  lemma {:induction false} RelationStaysConnected(reg: Registry, from: Model, current: Model, part: string, x: Relation)
    requires Sound(reg) && current in Connected(reg, from) && current in reg && Resolves(reg[current], part, x)
    ensures Models(x.target) + Models(x.through) <= Connected(reg, from)
    ensures Models(x.through) <= ThroughsOf(reg, Connected(reg, from))
  {
    hide Sound, Targets, Throughs, Connected, Resolves;
    ResolvedIsRelated(reg, current, part, x);
    forall m | m in Models(x.target) + Models(x.through) ensures m in Connected(reg, from) {
      ConnectedStep(reg, from, current, m);
    }
  }

  lemma {:induction false} InConnected(reg: Registry, root: Model, m: Model)
    requires m in Connected(reg, root)
    ensures m in reg
  {
  }

  // ----- connect_invalidation -----

  type CacheId = nat

  datatype Signal = PostSave | PostDelete | M2mChanged

  datatype Receiver = Receiver(signal: Signal, sender: Model, cache: CacheId)

  /** Connecting a model connects everything it is related to. */
  ghost predicate Complete(reg: Registry, signals: set<(Model, CacheId)>, m2m: set<(Model, CacheId)>) {
    forall m, c :: (m, c) in signals ==> m in reg && Covered(reg, signals, m2m, m, c)
  }

  ghost predicate Covered(reg: Registry, signals: set<(Model, CacheId)>, m2m: set<(Model, CacheId)>, m: Model,
                          c: CacheId) {
    && (forall y :: y in Connected(reg, m) ==> (y, c) in signals)
    && (forall t :: t in ThroughsOf(reg, Connected(reg, m)) ==> (t, c) in m2m)
  }

  /** The module-level sets, and the receivers that Django holds. */
  class Subscriptions {
    var signals: set<(Model, CacheId)>
    var m2m: set<(Model, CacheId)>
    var receivers: multiset<Receiver>

    /** The sets say which receivers exist, and no receiver was connected twice. */
    ghost predicate Valid()
      reads this
    {
      && (forall m, c :: receivers[Receiver(PostSave, m, c)] == (if (m, c) in signals then 1 else 0))
      && (forall m, c :: receivers[Receiver(PostDelete, m, c)] == (if (m, c) in signals then 1 else 0))
      && (forall m, c :: receivers[Receiver(M2mChanged, m, c)] == (if (m, c) in m2m then 1 else 0))
    }

    constructor ()
      ensures Valid() && signals == {} && m2m == {}
    {
      signals, m2m, receivers := {}, {}, multiset{};
    }

    /** `connect_invalidation`, including the early return for a connected model. */
    method Connect(reg: Registry, model: Model, enabled: bool, cache: CacheId)
      requires Sound(reg) && model in reg && Valid() && Complete(reg, signals, m2m)
      modifies this
      ensures Valid() && Complete(reg, signals, m2m)
      ensures old(signals) <= signals && old(m2m) <= m2m
      ensures !enabled ==> signals == old(signals) && m2m == old(m2m)
      ensures enabled ==> signals == old(signals) + (set y | y in Connected(reg, model) :: (y, cache))
      ensures enabled ==> m2m == old(m2m) + (set t | t in ThroughsOf(reg, Connected(reg, model)) :: (t, cache))
    {
      hide Connected, ThroughsOf, Sound;
      if !enabled { return; }
      if (model, cache) in signals {
        return;
      }
      var related, throughs := RelatedModelGraph(reg, model);
      ConnectSignals(related, cache);
      ConnectM2m(throughs, cache);
      StillComplete(reg, old(signals), old(m2m), signals, m2m, model, cache);
    }

    method ConnectSignals(related: set<Model>, cache: CacheId)
      requires Valid()
      modifies this
      ensures Valid() && signals == old(signals) + (set y | y in related :: (y, cache)) && m2m == old(m2m)
    {
      var todo := related;
      while todo != {}
        invariant Valid() && todo <= related && m2m == old(m2m)
        invariant signals == old(signals) + (set y | y in related - todo :: (y, cache))
        decreases |todo|
      {
        var dependency: Model :| dependency in todo;
        if (dependency, cache) !in signals {
          ConnectBoth(dependency, cache);
        }
        todo := todo - {dependency};
      }
      assert related - todo == related;
    }

    method ConnectBoth(dependency: Model, cache: CacheId)
      requires Valid() && (dependency, cache) !in signals
      modifies this
      ensures Valid() && signals == old(signals) + {(dependency, cache)} && m2m == old(m2m)
    {
      receivers := receivers + multiset{Receiver(PostSave, dependency, cache)};
      receivers := receivers + multiset{Receiver(PostDelete, dependency, cache)};
      signals := signals + {(dependency, cache)};
    }

    method ConnectM2m(throughs: set<Model>, cache: CacheId)
      requires Valid()
      modifies this
      ensures Valid() && m2m == old(m2m) + (set t | t in throughs :: (t, cache)) && signals == old(signals)
    {
      var todo := throughs;
      while todo != {}
        invariant Valid() && todo <= throughs && signals == old(signals)
        invariant m2m == old(m2m) + (set t | t in throughs - todo :: (t, cache))
        decreases |todo|
      {
        var through: Model :| through in todo;
        if (through, cache) !in m2m {
          receivers := receivers + multiset{Receiver(M2mChanged, through, cache)};
          m2m := m2m + {(through, cache)};
        }
        todo := todo - {through};
      }
      assert throughs - todo == throughs;
    }
  }

  lemma {:induction false} StillComplete(reg: Registry, signals0: set<(Model, CacheId)>, m2m0: set<(Model, CacheId)>,
                                         signals: set<(Model, CacheId)>, m2m: set<(Model, CacheId)>,
                                         model: Model, cache: CacheId)
    requires Sound(reg) && model in reg && Complete(reg, signals0, m2m0)
    requires signals == signals0 + (set y | y in Connected(reg, model) :: (y, cache))
    requires m2m == m2m0 + (set t | t in ThroughsOf(reg, Connected(reg, model)) :: (t, cache))
    ensures Complete(reg, signals, m2m)
  {
    hide Connected, Sound;
    forall m, c | (m, c) in signals ensures m in reg && Covered(reg, signals, m2m, m, c) {
      if (m, c) in signals0 {
        assert Covered(reg, signals0, m2m0, m, c);
      } else {
        InConnected(reg, model, m);
        ConnectedNests(reg, model, m);
      }
    }
  }

  /** Every model that a prefetch path adds to the scopes of a query on a connected model is
      subscribed with the same cache, and every through model it crosses is subscribed for
      changes of the relation. */
  lemma {:induction false} DependenciesAreSubscribed(
      reg: Registry, signals: set<(Model, CacheId)>, m2m: set<(Model, CacheId)>,
      ordinary: set<Model>, m: Model, c: CacheId, parts: seq<string>, path: seq<Relation>, d: Model)
    requires Sound(reg) && Complete(reg, signals, m2m) && (m, c) in signals
    requires Crosses(reg, ordinary, m, parts, path)
    ensures Adds(path, d) ==> (d, c) in signals
    ensures (exists k :: 0 <= k < |path| && path[k].through == To(d)) ==> (d, c) in m2m
  {
    hide Sound, Connected, ThroughsOf, Crosses;
    assert Covered(reg, signals, m2m, m, c);
    if k :| 0 <= k < |path| && (path[k].target == To(d) || path[k].through == To(d)) {
      PathStaysConnected(reg, ordinary, m, parts, path, k);
    }
    if k :| 0 <= k < |path| && path[k].through == To(d) {
      PathStaysConnected(reg, ordinary, m, parts, path, k);
    }
  }

  lemma {:induction false} SelfConnected(reg: Registry, m: Model)
    requires m in reg
    ensures m in Connected(reg, m)
  {
    ReachSelf(Related(reg), m);
  }
}
