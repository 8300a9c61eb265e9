/** What the store holds after any sequence of events that the API server can send. */
module IngressStoreProperties {
  import opened Basics
  import opened RefMap
  import opened IngressStore

  datatype Event = Added(ing: Ingress) | Updated(cur: Ingress) | Deleted(key: string)

  function EventKey(e: Event): string {
    match e
    case Added(ing) => ing.ObjectKey()
    case Updated(cur) => cur.ObjectKey()
    case Deleted(key) => key
  }

  /** The existing objects in their last version, and the store. */
  datatype World = World(seen: map<string, Ingress>, st: State)

  /** An object is added when it does not exist, and updated or deleted when it does; it keeps its name. */
  predicate Possible(w: World, e: Event) {
    match e
    case Added(ing) => ing.ObjectKey() !in w.seen
    case Updated(cur) =>
      var key := cur.ObjectKey();
      key in w.seen && w.seen[key].ns == cur.ns && w.seen[key].name == cur.name
    case Deleted(key) => key in w.seen
  }

  function Happen(cfg: Config, w: World, e: Event): World
    requires Possible(w, e)
  {
    match e
    case Added(ing) => World(w.seen[ing.ObjectKey() := ing], OnAdd(cfg, w.st, ing))
    case Updated(cur) =>
      World(w.seen[cur.ObjectKey() := cur], OnUpdate(cfg, w.st, w.seen[cur.ObjectKey()], cur))
    case Deleted(key) => World(w.seen - {key}, OnDelete(cfg, w.st, w.seen[key]))
  }

  /** The store may hold the object: its namespace is watched, its class accepted, and it is no forbidden
      catch-all. */
  predicate Live(cfg: Config, ing: Ingress) {
    cfg.watched(ing.ns) && HasClass(cfg, ing) && !ForbiddenCatchAll(cfg, ing)
  }

  predicate Admitted(cfg: Config, ing: Ingress) {
    Live(cfg, ing) && Inspected(cfg, ing) && !cfg.blocked(ing)
  }

  lemma RuleFilled(rule: Rule)
    ensures var copy := OnPaths(Typed, OnPaths(Rooted, rule));
            && OnPaths(Typed, OnPaths(Rooted, copy)) == copy && copy.Some? == rule.Some?
            && (rule.Some? ==> Filled(copy.value, rule.value))
  {
    if rule.Some? {
      var rooted := OnPaths(Rooted, rule);
      var copy := OnPaths(Typed, rooted);
      forall k | 0 <= k < |rule.value| ensures FilledPath(copy.value[k], rule.value[k]) {
        assert rooted.value[k] == Rooted(rule.value[k]) && copy.value[k] == Typed(rooted.value[k]);
        var t := rule.value[k].pathType;
        assert t.None? || t.value.Exact? || t.value.Prefix? || t.value.ImplementationSpecific?;
      }
      assert OnPaths(Typed, OnPaths(Rooted, copy)).value == copy.value;
    }
  }

  /** The defaults fill in what a version left open and change nothing else; filling them in again changes nothing. */
  lemma DefaultsFillIn(ing: Ingress)
    ensures var copy := Defaulted(ing);
            && Defaulted(copy) == copy && copy.(rules := ing.rules) == ing && |copy.rules| == |ing.rules|
            && forall j | 0 <= j < |ing.rules| ::
                 && copy.rules[j].Some? == ing.rules[j].Some?
                 && (ing.rules[j].Some? ==> Filled(copy.rules[j].value, ing.rules[j].value))
  {
    var copy := Defaulted(ing);
    forall j | 0 <= j < |ing.rules|
      ensures copy.rules[j].Some? == ing.rules[j].Some?
      ensures ing.rules[j].Some? ==> Filled(copy.rules[j].value, ing.rules[j].value)
      ensures OnPaths(Typed, OnPaths(Rooted, copy.rules[j])) == copy.rules[j]
    {
      RuleFilled(ing.rules[j]);
    }
    assert Defaulted(copy).rules == copy.rules;
  }

  /** Every path begins somewhere and is Exact or Prefix; what was given is kept. */
  predicate Filled(copies: seq<HttpPath>, paths: seq<HttpPath>) {
    |copies| == |paths| && forall k | 0 <= k < |paths| :: FilledPath(copies[k], paths[k])
  }

  predicate FilledPath(copy: HttpPath, p: HttpPath) {
    && copy.path == (if p.path == "" then "/" else p.path)
    && (copy.pathType == Some(Exact) || copy.pathType == Some(Prefix))
    && (copy.pathType == Some(Exact) <==> p.pathType == Some(Exact))
  }

  /** A stored copy stems from an admitted version. */
  ghost predicate CopyOfAdmitted(cfg: Config, copy: Ingress) {
    exists v :: Admitted(cfg, v) && copy == Defaulted(v)
  }

  function RefsOf(refs: set<Pair>, key: string): set<string> {
    set p | p in refs && p.0 == key :: p.1
  }

  /** What is stored under a key: a copy of an admitted version of a live object, and of the last version whenever that
      is admitted itself. */
  ghost predicate KeyInvariant(cfg: Config, w: World, k: string) {
    && (k in w.seen ==> w.seen[k].ObjectKey() == k)
    && (k in w.st.stored ==>
          && k in w.seen && Live(cfg, w.seen[k])
          && CopyOfAdmitted(cfg, w.st.stored[k]) && w.st.stored[k].ObjectKey() == k)
    && (k in w.seen && Admitted(cfg, w.seen[k]) ==> k in w.st.stored && w.st.stored[k] == Defaulted(w.seen[k]))
    && (RefsOf(w.st.refs, k) != {} ==> k in w.seen && Live(cfg, w.seen[k]))
    && (k in w.seen && Live(cfg, w.seen[k]) && Inspected(cfg, w.seen[k]) ==>
          RefsOf(w.st.refs, k) == UsedSecrets(w.seen[k]))
  }

  ghost predicate Invariant(cfg: Config, w: World) {
    forall k :: KeyInvariant(cfg, w, k)
  }

  lemma RefsOfIff(refs: set<Pair>, k: string)
    ensures forall r :: (k, r) in refs <==> r in RefsOf(refs, k)
  {
  }

  lemma RefsOfKept(refs: set<Pair>, key: string, used: set<string>, k: string)
    ensures RefsOf(Without(refs, key) + (set r | r in used :: (key, r)), k) ==
            if k == key then used else RefsOf(refs, k)
  {
    var new_ := Without(refs, key) + set r | r in used :: (key, r);
    forall x ensures x in RefsOf(new_, k) <==> x in if k == key then used else RefsOf(refs, k) {
      assert x in RefsOf(new_, k) <==> (k, x) in new_;
      assert x in RefsOf(refs, k) <==> (k, x) in refs;
    }
  }

  lemma RefsOfWithout(refs: set<Pair>, key: string, k: string)
    ensures RefsOf(Without(refs, key), k) == if k == key then {} else RefsOf(refs, k)
  {
    forall x ensures x in RefsOf(Without(refs, key), k) <==> k != key && x in RefsOf(refs, k) {
      assert x in RefsOf(refs, k) <==> (k, x) in refs;
    }
  }

  /** An event about one key leaves everything under another as it was. */
  lemma OtherKeyKept(cfg: Config, w: World, e: Event, key: string, k: string)
    requires Possible(w, e) && k != key && KeyInvariant(cfg, w, key)
    requires key == EventKey(e)
    ensures var w' := Happen(cfg, w, e);
            && (k in w'.seen <==> k in w.seen) && (k in w.seen ==> w'.seen[k] == w.seen[k])
            && (k in w'.st.stored <==> k in w.st.stored) && (k in w.st.stored ==> w'.st.stored[k] == w.st.stored[k])
            && RefsOf(w'.st.refs, k) == RefsOf(w.st.refs, k)
  {
    RefsOfWithout(w.st.refs, key, k);
    match e
    case Added(ing) => RefsOfKept(w.st.refs, key, UsedSecrets(ing), k);
    case Updated(cur) => RefsOfKept(w.st.refs, key, UsedSecrets(cur), k);
    case Deleted(_) =>
  }

  lemma AddKeepsKey(cfg: Config, w: World, ing: Ingress)
    requires KeyInvariant(cfg, w, ing.ObjectKey()) && Possible(w, Added(ing))
    ensures KeyInvariant(cfg, Happen(cfg, w, Added(ing)), ing.ObjectKey())
  {
    RefsOfKept(w.st.refs, ing.ObjectKey(), UsedSecrets(ing), ing.ObjectKey());
  }

  lemma DeleteKeepsKey(cfg: Config, w: World, key: string)
    requires KeyInvariant(cfg, w, key) && Possible(w, Deleted(key))
    ensures KeyInvariant(cfg, Happen(cfg, w, Deleted(key)), key)
  {
    RefsOfWithout(w.st.refs, key, key);
  }

  lemma UpdateKeepsKey(cfg: Config, w: World, cur: Ingress)
    requires KeyInvariant(cfg, w, cur.ObjectKey()) && Possible(w, Updated(cur)) && !cfg.ignoreIngressClass
    ensures KeyInvariant(cfg, Happen(cfg, w, Updated(cur)), cur.ObjectKey())
  {
    var key := cur.ObjectKey();
    var prev := w.seen[key];
    RefsOfKept(w.st.refs, key, UsedSecrets(cur), key);
    RefsOfWithout(w.st.refs, key, key);
    if !cfg.watched(cur.ns) {
    } else if prev == cur {
    } else if !HasClass(cfg, cur) {
    } else if ForbiddenCatchAll(cfg, cur) {
    } else {
      assert OnUpdate(cfg, w.st, prev, cur) == if Inspected(cfg, cur) then Keep(cfg, w.st, cur) else w.st;
    }
  }

  lemma HappenKeepsKey(cfg: Config, w: World, e: Event, k: string)
    requires Invariant(cfg, w) && Possible(w, e) && !cfg.ignoreIngressClass
    ensures KeyInvariant(cfg, Happen(cfg, w, e), k)
  {
    var key := EventKey(e);
    assert KeyInvariant(cfg, w, k) && KeyInvariant(cfg, w, key);
    if k != key {
      OtherKeyKept(cfg, w, e, key, k);
    } else {
      match e
      case Added(ing) => AddKeepsKey(cfg, w, ing);
      case Updated(cur) => UpdateKeepsKey(cfg, w, cur);
      case Deleted(_) => DeleteKeepsKey(cfg, w, key);
    }
  }

  // ----- Whole runs -----

  ghost predicate Runs(cfg: Config, ws: seq<World>, es: seq<Event>) {
    && |ws| == |es| + 1 && ws[0] == World(map[], State(map[], {}))
    && forall i | 0 <= i < |es| :: Possible(ws[i], es[i]) && ws[i + 1] == Happen(cfg, ws[i], es[i])
  }

  lemma {:induction false} RunKeepsInvariant(cfg: Config, ws: seq<World>, es: seq<Event>, i: nat)
    requires Runs(cfg, ws, es) && i < |ws| && !cfg.ignoreIngressClass
    ensures Invariant(cfg, ws[i])
  {
    if i > 0 {
      RunKeepsInvariant(cfg, ws, es, i - 1);
      forall k ensures KeyInvariant(cfg, ws[i], k) {
        HappenKeepsKey(cfg, ws[i - 1], es[i - 1], k);
      }
    }
  }

  /** Every stored copy is of a version that passed the namespace filter, the class check, the inspector, the
      catch-all rule and the blocklist. */
  lemma StoredWasAdmitted(cfg: Config, ws: seq<World>, es: seq<Event>, i: nat, k: string)
    requires Runs(cfg, ws, es) && i < |ws| && !cfg.ignoreIngressClass && k in ws[i].st.stored
    ensures CopyOfAdmitted(cfg, ws[i].st.stored[k]) && ws[i].st.stored[k].ObjectKey() == k
  {
    RunKeepsInvariant(cfg, ws, es, i);
    assert KeyInvariant(cfg, ws[i], k);
  }

  /** An object that is deleted, or whose last version has lost its class or become a forbidden catch-all, is in
      neither the store nor the map of Secrets. */
  lemma GoneFromBoth(cfg: Config, ws: seq<World>, es: seq<Event>, i: nat, k: string)
    requires Runs(cfg, ws, es) && i < |ws| && !cfg.ignoreIngressClass
    requires k !in ws[i].seen || !Live(cfg, ws[i].seen[k])
    ensures k !in ws[i].st.stored && forall r :: (k, r) !in ws[i].st.refs
  {
    RunKeepsInvariant(cfg, ws, es, i);
    assert KeyInvariant(cfg, ws[i], k);
    RefsOfIff(ws[i].st.refs, k);
  }

  /** When neither the inspector nor the blocklist rejects any existing object, the store holds exactly copies of the
      last versions of the live objects, and the map of Secrets exactly what they use. */
  lemma StoreIsExact(cfg: Config, ws: seq<World>, es: seq<Event>, i: nat)
    requires Runs(cfg, ws, es) && i < |ws| && !cfg.ignoreIngressClass
    requires forall k | k in ws[i].seen :: Inspected(cfg, ws[i].seen[k]) && !cfg.blocked(ws[i].seen[k])
    ensures ws[i].st.stored == map k | k in ws[i].seen && Live(cfg, ws[i].seen[k]) :: Defaulted(ws[i].seen[k])
    ensures forall k, r :: (k, r) in ws[i].st.refs <==>
              k in ws[i].seen && Live(cfg, ws[i].seen[k]) && UsesSecret(ws[i].seen[k], r)
  {
    RunKeepsInvariant(cfg, ws, es, i);
    var w := ws[i];
    forall k ensures k in w.st.stored <==> k in w.seen && Live(cfg, w.seen[k])
      ensures k in w.st.stored ==> w.st.stored[k] == Defaulted(w.seen[k])
    {
      assert KeyInvariant(cfg, w, k);
    }
    forall k, r ensures (k, r) in w.st.refs <==> k in w.seen && Live(cfg, w.seen[k]) && UsesSecret(w.seen[k], r) {
      assert KeyInvariant(cfg, w, k);
      RefsOfIff(w.st.refs, k);
    }
  }

  /** With IgnoreIngressClass on, an update stores a version whose class the controller does not accept, and
      its deletion afterwards leaves it in the store. */
  lemma IgnoringClassKeepsForeign(cfg: Config, good: Ingress, bad: Ingress)
    requires cfg.ignoreIngressClass && Admitted(cfg, good) && good.ObjectKey() == bad.ObjectKey()
    requires good.ns == bad.ns && good.name == bad.name && good != bad
    requires !HasClass(cfg, bad) && Inspected(cfg, bad) && !cfg.blocked(bad) && !ForbiddenCatchAll(cfg, bad)
    ensures var w1 := Happen(cfg, World(map[], State(map[], {})), Added(good));
            Possible(w1, Updated(bad)) &&
            var w2 := Happen(cfg, w1, Updated(bad));
            var k := bad.ObjectKey();
            Possible(w2, Deleted(k)) &&
            var w3 := Happen(cfg, w2, Deleted(k));
            && k in w2.st.stored && w2.st.stored[k] == Defaulted(bad)
            && k !in w3.seen && k in w3.st.stored
  {
  }

  // ----- Which classes and Secrets these are -----

  /** The class of an Ingress: its class name decides if it has one and the flag does not ignore it, by the known
      IngressClasses; otherwise its annotation, by the controller's own value; without either a flag. */
  lemma ClassDecided(cfg: Config, ing: Ingress, className: string, annotation: string)
    ensures ing.className == Some(className) && !cfg.ignoreIngressClass ==>
              (HasClass(cfg, ing) <==> className in cfg.classes)
    ensures (ing.className == None || cfg.ignoreIngressClass) && ing.classAnnotation == Some(annotation) ==>
              (HasClass(cfg, ing) <==> annotation == cfg.annotationValue)
    ensures (ing.className == None || cfg.ignoreIngressClass) && ing.classAnnotation == None ==>
              (HasClass(cfg, ing) <==> cfg.watchWithoutClass)
  {
  }

  /** The last version of an object: in a watched namespace, no catch-all where that is disabled, let through by the
      inspector and the blocklist, and of the controller's class by name, by annotation or by neither. */
  predicate Wanted(cfg: Config, ing: Ingress) {
    && cfg.watched(ing.ns) && !(ing.hasDefaultBackend && cfg.disableCatchAll)
    && match (ing.className, ing.classAnnotation)
       case (Some(name), _) => name in cfg.classes
       case (None, Some(value)) => value == cfg.annotationValue
       case (None, None) => cfg.watchWithoutClass
  }

  /** Over all event sequences, of an object whose last version nobody rejects a copy is stored exactly if that
      version is wanted, and the map of Secrets has then exactly the Secrets of its TLS sections, in its own
      namespace, and of its annotations, in the namespace that they give or else its own. */
  lemma StoredExactlyWanted(cfg: Config, ws: seq<World>, es: seq<Event>, i: nat, k: string)
    requires Runs(cfg, ws, es) && i < |ws| && !cfg.ignoreIngressClass && k in ws[i].seen
    requires !cfg.blocked(ws[i].seen[k]) && (cfg.deepInspector ==> cfg.inspects(ws[i].seen[k]))
    ensures var ing, st := ws[i].seen[k], ws[i].st;
            && (k in st.stored <==> Wanted(cfg, ing)) && (k in st.stored ==> st.stored[k] == Defaulted(ing))
            && forall r :: (k, r) in st.refs <==>
                 Wanted(cfg, ing) &&
                 ((exists s | s in ing.tlsSecrets :: s != "" && r == ing.ns + "/" + s) ||
                  exists a | a in ing.secretAnnotations ::
                    a.Key? && a.name != "" && r == (if a.ns != "" then a.ns else ing.ns) + "/" + a.name)
  {
    RunKeepsInvariant(cfg, ws, es, i);
    assert KeyInvariant(cfg, ws[i], k);
    RefsOfIff(ws[i].st.refs, k);
    var ing := ws[i].seen[k];
    assert Live(cfg, ing) <==> Wanted(cfg, ing);
    SecretsSpelled(ing);
  }

  /** Whatever is stored is the copy of a wanted version that neither the inspector nor the blocklist rejected. */
  lemma StoredPassed(cfg: Config, ws: seq<World>, es: seq<Event>, i: nat, k: string)
    requires Runs(cfg, ws, es) && i < |ws| && !cfg.ignoreIngressClass && k in ws[i].st.stored
    ensures exists v :: Wanted(cfg, v) && (cfg.deepInspector ==> cfg.inspects(v)) && !cfg.blocked(v)
                        && ws[i].st.stored[k] == Defaulted(v)
  {
    StoredWasAdmitted(cfg, ws, es, i, k);
    var v :| Admitted(cfg, v) && ws[i].st.stored[k] == Defaulted(v);
    assert Wanted(cfg, v);
  }

  /** What the inspector rejects changes nothing: the version before it stays, with its Secrets.  What the blocklist
      rejects changes the Secrets only. */
  lemma RejectedUpdateKeeps(cfg: Config, st: State, prev: Ingress, cur: Ingress)
    requires Wanted(cfg, prev) && Wanted(cfg, cur) && prev != cur && !cfg.ignoreIngressClass
    ensures cfg.deepInspector && !cfg.inspects(cur) ==> OnUpdate(cfg, st, prev, cur) == st == OnAdd(cfg, st, cur)
    ensures (cfg.deepInspector ==> cfg.inspects(cur)) && cfg.blocked(cur) ==>
              OnUpdate(cfg, st, prev, cur).stored == st.stored
  {
  }

  lemma SecretsSpelled(ing: Ingress)
    ensures forall r :: UsesSecret(ing, r) <==>
              (exists s | s in ing.tlsSecrets :: s != "" && r == ing.ns + "/" + s) ||
              exists a | a in ing.secretAnnotations ::
                a.Key? && a.name != "" && r == (if a.ns != "" then a.ns else ing.ns) + "/" + a.name
  {
  }

  /** Objects are known by namespace and name: no two of them share a key, as neither contains a slash. */
  lemma KeysToldApart(a: Ingress, b: Ingress)
    requires '/' !in a.ns && '/' !in b.ns && '/' !in a.name && '/' !in b.name
    ensures a.ObjectKey() == b.ObjectKey() <==> a.ns == b.ns && a.name == b.name
  {
    if a.ObjectKey() == b.ObjectKey() {
      var k := a.ObjectKey();
      assert k[|a.ns|] == '/' && k[|b.ns|] == '/';
      assert forall i | 0 <= i < |a.ns| :: k[i] == a.ns[i];
      assert forall i | 0 <= i < |b.ns| :: k[i] == b.ns[i];
      assert |a.ns| == |b.ns|;
      assert a.ns == k[..|a.ns|] && b.ns == k[..|b.ns|];
      assert a.name == k[|a.ns| + 1..] && b.name == k[|b.ns| + 1..];
    }
  }
}
