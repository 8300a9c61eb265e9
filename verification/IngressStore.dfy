/** The local store of Ingresses: the event handlers decide which versions are kept and which Secrets are
    recorded as used. */
module IngressStore {
  import opened Basics
  import opened RefMap

  /** A Secret named by an annotation: absent, not of the form [namespace/]name, or split into its parts. */
  datatype SecretAnnotation = Absent | Malformed | Key(ns: string, name: string)

  datatype PathType = Exact | Prefix | ImplementationSpecific

  datatype HttpPath = HttpPath(path: string, pathType: Option<PathType>)

  /** A rule is the paths of its HTTP section, if it has one. */
  type Rule = Option<seq<HttpPath>>

  datatype Ingress = Ingress(ns: string, name: string, className: Option<string>, classAnnotation: Option<string>,
                             hasDefaultBackend: bool, tlsSecrets: seq<string>,
                             secretAnnotations: seq<SecretAnnotation>, rules: seq<Rule>, rest: string)
  {
    function ObjectKey(): string { ns + "/" + name }
  }

  /** The flags, the known IngressClasses, and the verdicts of the inspector and of the annotation blocklist. */
  datatype Config = Config(classes: set<string>, annotationValue: string, watchWithoutClass: bool,
                           ignoreIngressClass: bool, disableCatchAll: bool, deepInspector: bool,
                           watched: string -> bool, inspects: Ingress -> bool, blocked: Ingress -> bool)

  datatype State = State(stored: map<string, Ingress>, refs: set<Pair>)

  // ----- Specification -----

  /** Whether the controller accepts the class of an Ingress. */
  predicate HasClass(cfg: Config, ing: Ingress) {
    if !cfg.ignoreIngressClass && ing.className.Some? then ing.className.value in cfg.classes
    else if ing.classAnnotation.Some? then ing.classAnnotation.value == cfg.annotationValue
    else cfg.watchWithoutClass
  }

  predicate ForbiddenCatchAll(cfg: Config, ing: Ingress) {
    ing.hasDefaultBackend && cfg.disableCatchAll
  }

  predicate Inspected(cfg: Config, ing: Ingress) {
    cfg.deepInspector ==> cfg.inspects(ing)
  }

  function AnnotationKey(ing: Ingress, a: SecretAnnotation): Option<string> {
    match a
    case Key(ns, name) => if name == "" then None else Some((if ns == "" then ing.ns else ns) + "/" + name)
    case _ => None
  }

  /** The Secrets an Ingress uses, by TLS section or by annotation. */
  predicate UsesSecret(ing: Ingress, key: string) {
    || (exists s | s in ing.tlsSecrets :: s != "" && key == ing.ns + "/" + s)
    || (exists a | a in ing.secretAnnotations :: AnnotationKey(ing, a) == Some(key))
  }

  function UsedSecrets(ing: Ingress): (r: set<string>)
    ensures forall k :: k in r <==> UsesSecret(ing, k)
  {
    (set s | s in ing.tlsSecrets && s != "" :: ing.ns + "/" + s) +
    (set a | a in ing.secretAnnotations && AnnotationKey(ing, a).Some? :: AnnotationKey(ing, a).value)
  }

  function Without(refs: set<Pair>, key: string): set<Pair> {
    set p | p in refs && p.0 != key
  }

  function Rooted(p: HttpPath): HttpPath {
    if p.path == "" then p.(path := "/") else p
  }

  function Typed(p: HttpPath): HttpPath {
    if p.pathType == None || p.pathType == Some(ImplementationSpecific) then p.(pathType := Some(Prefix)) else p
  }

  function OnPaths(f: HttpPath -> HttpPath, rule: Rule): (r: Rule)
    ensures r.Some? == rule.Some? && (r.Some? ==> |r.value| == |rule.value|)
    ensures r.Some? ==> forall k | 0 <= k < |r.value| :: r.value[k] == f(rule.value[k])
  {
    match rule
    case None => None
    case Some(paths) => Some(Map(f, paths))
  }

  lemma OnPathsIs(f: HttpPath -> HttpPath, rule: Rule, paths: seq<HttpPath>)
    requires rule.Some? && |paths| == |rule.value| && forall k | 0 <= k < |paths| :: paths[k] == f(rule.value[k])
    ensures Some(paths) == OnPaths(f, rule)
  {
    assert OnPaths(f, rule).value == paths;
  }

  /** The copy that is stored: every path is given, and is of type Exact or Prefix. */
  function Defaulted(ing: Ingress): Ingress {
    ing.(rules := seq(|ing.rules|, j requires 0 <= j < |ing.rules| => OnPaths(Typed, OnPaths(Rooted, ing.rules[j]))))
  }

  /** Keeps a copy of the version unless an annotation is on the blocklist; the Secret references change in any case. */
  function Keep(cfg: Config, st: State, ing: Ingress): State {
    var key := ing.ObjectKey();
    State(if cfg.blocked(ing) then st.stored else st.stored[key := Defaulted(ing)],
          Without(st.refs, key) + set r | r in UsedSecrets(ing) :: (key, r))
  }

  function OnAdd(cfg: Config, st: State, ing: Ingress): State {
    if !cfg.watched(ing.ns) || !HasClass(cfg, ing) || !Inspected(cfg, ing) || ForbiddenCatchAll(cfg, ing) then st
    else Keep(cfg, st, ing)
  }

  function OnDelete(cfg: Config, st: State, ing: Ingress): State {
    if !cfg.watched(ing.ns) || !HasClass(cfg, ing) || ForbiddenCatchAll(cfg, ing) then st
    else State(st.stored - {ing.ObjectKey()}, Without(st.refs, ing.ObjectKey()))
  }

  function OnUpdate(cfg: Config, st: State, prev: Ingress, cur: Ingress): State {
    var okOld := cfg.ignoreIngressClass || HasClass(cfg, prev);
    var okCur := cfg.ignoreIngressClass || HasClass(cfg, cur);
    if !cfg.watched(prev.ns) then st
    else if !okOld && okCur then
      if ForbiddenCatchAll(cfg, cur) || !Inspected(cfg, cur) then st else Keep(cfg, st, cur)
    else if okOld && !okCur then OnDelete(cfg, st, prev)
    else if okCur && prev != cur then
      if ForbiddenCatchAll(cfg, cur) then OnDelete(cfg, st, prev)
      else if !Inspected(cfg, cur) then st
      else Keep(cfg, st, cur)
    else st
  }

  // ----- The program -----

  /** An omitted path becomes the root. */
  method SetDefaultPath(ing: Ingress) returns (copy: Ingress)
    ensures copy == ing.(rules := copy.rules) && |copy.rules| == |ing.rules|
    ensures forall j | 0 <= j < |ing.rules| :: copy.rules[j] == OnPaths(Rooted, ing.rules[j])
  {
    var rules := ing.rules;
    for ri := 0 to |rules|
      invariant |rules| == |ing.rules|
      invariant forall j | 0 <= j < ri :: rules[j] == OnPaths(Rooted, ing.rules[j])
      invariant forall j | ri <= j < |rules| :: rules[j] == ing.rules[j]
    {
      if rules[ri].None? {
        continue;
      }
      var paths := rules[ri].value;
      for pi := 0 to |paths|
        invariant |paths| == |ing.rules[ri].value|
        invariant forall k | 0 <= k < pi :: paths[k] == Rooted(ing.rules[ri].value[k])
        invariant forall k | pi <= k < |paths| :: paths[k] == ing.rules[ri].value[k]
      {
        if paths[pi].path == "" {
          paths := paths[pi := paths[pi].(path := "/")];
        }
      }
      OnPathsIs(Rooted, ing.rules[ri], paths);
      rules := rules[ri := Some(paths)];
    }
    copy := ing.(rules := rules);
  }

  /** An omitted path type, and one that is left to the implementation, become Prefix. */
  method SetDefaultPathType(ing: Ingress) returns (copy: Ingress)
    ensures copy == ing.(rules := copy.rules) && |copy.rules| == |ing.rules|
    ensures forall j | 0 <= j < |ing.rules| :: copy.rules[j] == OnPaths(Typed, ing.rules[j])
  {
    var rules := ing.rules;
    for ri := 0 to |rules|
      invariant |rules| == |ing.rules|
      invariant forall j | 0 <= j < ri :: rules[j] == OnPaths(Typed, ing.rules[j])
      invariant forall j | ri <= j < |rules| :: rules[j] == ing.rules[j]
    {
      if rules[ri].None? {
        continue;
      }
      var paths := rules[ri].value;
      for pi := 0 to |paths|
        invariant |paths| == |ing.rules[ri].value|
        invariant forall k | 0 <= k < pi :: paths[k] == Typed(ing.rules[ri].value[k])
        invariant forall k | pi <= k < |paths| :: paths[k] == ing.rules[ri].value[k]
      {
        var p := paths[pi];
        if p.pathType == None {
          p := p.(pathType := Some(Prefix));
        }
        if p.pathType == Some(ImplementationSpecific) {
          p := p.(pathType := Some(Prefix));
        }
        paths := paths[pi := p];
      }
      OnPathsIs(Typed, ing.rules[ri], paths);
      rules := rules[ri := Some(paths)];
    }
    copy := ing.(rules := rules);
  }

  class Store {
    const cfg: Config
    var ingresses: map<string, Ingress>
    const secretIngressMap: ObjectRefMap

    ghost predicate Valid()
      reads this, secretIngressMap
    {
      secretIngressMap.Valid()
    }

    ghost function AsState(): State
      reads this, secretIngressMap
    {
      State(ingresses, secretIngressMap.Rel())
    }

    constructor (cfg: Config)
      ensures Valid() && AsState() == State(map[], {}) && this.cfg == cfg && fresh(secretIngressMap)
    {
      this.cfg := cfg;
      ingresses := map[];
      secretIngressMap := new ObjectRefMap();
    }

    method GetIngressClass(ing: Ingress) returns (name: Option<string>)
      ensures name.Some? == HasClass(cfg, ing)
    {
      // the spec's class name counts before the annotation
      if !cfg.ignoreIngressClass && ing.className.Some? {
        return if ing.className.value in cfg.classes then ing.className else None;
      }
      // an annotation must carry the controller's own class
      if ing.classAnnotation.Some? {
        return if ing.classAnnotation.value != cfg.annotationValue then None else ing.classAnnotation;
      }
      // without either, a flag decides
      return if cfg.watchWithoutClass then Some("_") else None;
    }

    method SyncIngress(ing: Ingress)
      modifies `ingresses
      ensures ingresses ==
              if cfg.blocked(ing) then old(ingresses) else old(ingresses)[ing.ObjectKey() := Defaulted(ing)]
    {
      if cfg.blocked(ing) {
        return;
      }
      var rooted := SetDefaultPath(ing);
      var copy := SetDefaultPathType(rooted);
      assert copy.rules == Defaulted(ing).rules;
      ingresses := ingresses[ing.ObjectKey() := copy];
    }

    method CollectSecrets(ing: Ingress) returns (refSecrets: seq<string>)
      ensures (set r | r in refSecrets) == UsedSecrets(ing)
    {
      refSecrets := [];
      for i := 0 to |ing.tlsSecrets|
        invariant forall k :: k in refSecrets <==>
                    exists j | 0 <= j < i :: ing.tlsSecrets[j] != "" && k == ing.ns + "/" + ing.tlsSecrets[j]
      {
        if ing.tlsSecrets[i] != "" {
          refSecrets := refSecrets + [ing.ns + "/" + ing.tlsSecrets[i]];
        }
      }
      ghost var fromTls := refSecrets;
      for i := 0 to |ing.secretAnnotations|
        invariant forall k :: k in refSecrets <==>
                    k in fromTls || exists j | 0 <= j < i :: AnnotationKey(ing, ing.secretAnnotations[j]) == Some(k)
      {
        var secrKey := AnnotationKey(ing, ing.secretAnnotations[i]);
        if secrKey.Some? {
          refSecrets := refSecrets + [secrKey.value];
        }
      }
      forall k ensures k in refSecrets <==> UsesSecret(ing, k) {
      }
    }

    method UpdateSecretIngressMap(ing: Ingress)
      requires Valid()
      modifies secretIngressMap
      ensures Valid()
      ensures secretIngressMap.Rel() ==
              Without(old(secretIngressMap.Rel()), ing.ObjectKey()) +
              set r | r in UsedSecrets(ing) :: (ing.ObjectKey(), r)
    {
      // what the last version used is forgotten
      secretIngressMap.Delete(ing.ObjectKey());
      var refSecrets := CollectSecrets(ing);
      // and what this version uses is recorded
      secretIngressMap.Insert(ing.ObjectKey(), refSecrets);
      forall r ensures r in refSecrets <==> r in UsedSecrets(ing) {
        assert r in refSecrets <==> r in set r | r in refSecrets;
      }
    }

    method IngressAdded(ing: Ingress)
      requires Valid()
      modifies `ingresses, secretIngressMap
      ensures Valid() && AsState() == OnAdd(cfg, old(AsState()), ing)
    {
      if !cfg.watched(ing.ns) {
        return;
      }
      var class_ := GetIngressClass(ing);
      if class_.None? {
        return;
      }
      if cfg.deepInspector && !cfg.inspects(ing) {
        return;
      }
      if ing.hasDefaultBackend && cfg.disableCatchAll {
        return;
      }
      SyncIngress(ing);
      UpdateSecretIngressMap(ing);
    }

    method IngressDeleted(ing: Ingress)
      requires Valid()
      modifies `ingresses, secretIngressMap
      ensures Valid() && AsState() == OnDelete(cfg, old(AsState()), ing)
    {
      if !cfg.watched(ing.ns) {
        return;
      }
      var class_ := GetIngressClass(ing);
      if class_.None? {
        return;
      }
      if ing.hasDefaultBackend && cfg.disableCatchAll {
        return;
      }
      ingresses := ingresses - {ing.ObjectKey()};
      secretIngressMap.Delete(ing.ObjectKey());
    }

    method IngressUpdated(prev: Ingress, cur: Ingress)
      requires Valid()
      modifies `ingresses, secretIngressMap
      ensures Valid() && AsState() == OnUpdate(cfg, old(AsState()), prev, cur)
    {
      if !cfg.watched(prev.ns) {
        return;
      }
      var errOld, errCur := false, false;
      if !cfg.ignoreIngressClass {
        var classOld := GetIngressClass(prev);
        var classCur := GetIngressClass(cur);
        errOld, errCur := classOld.None?, classCur.None?;
      }
      if errOld && !errCur {
        if cur.hasDefaultBackend && cfg.disableCatchAll {
          return;
        }
      } else if !errOld && errCur {
        IngressDeleted(prev);
        return;
      } else if !errCur && prev != cur {
        if cur.hasDefaultBackend && cfg.disableCatchAll {
          IngressDeleted(prev);
          return;
        }
      } else {
        return;
      }
      if cfg.deepInspector && !cfg.inspects(cur) {
        return;
      }
      SyncIngress(cur);
      UpdateSecretIngressMap(cur);
    }
  }
}
