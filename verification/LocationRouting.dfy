/** What the location compiler preserves: which backend a request path is sent to.

    The input is read as the Ingress rules mean it, the output as nginx reads the rendered server block:
    an exact location first, otherwise the longest location path that is a prefix of the request path. */
module LocationRouting {
  import opened Paths
  import opened Locations

  // ----- The two readings -----

  predicate MatchesRule(l: Loc, request: string) {
    match l.pathType
    case Exact => request == l.path
    case Prefix => request == l.path || Normalize(l.path) <= request
  }

  /** `l` answers the request under the Ingress rules: Exact paths win, then the longest Prefix path. */
  ghost predicate RuleChoice(ls: seq<Loc>, request: string, l: Loc) {
    && l in ls && MatchesRule(l, request)
    && forall m | m in ls && MatchesRule(m, request) ::
         m == l || l.pathType == Exact || (m.pathType == Prefix && |m.path| <= |l.path|)
  }

  predicate HasExact(ls: seq<Loc>, request: string) {
    exists m | m in ls :: m.pathType == Exact && m.path == request
  }

  /** `l` answers the request in nginx. */
  ghost predicate NginxChoice(ls: seq<Loc>, request: string, l: Loc) {
    && l in ls
    && if l.pathType == Exact then l.path == request
       else
         && l.path <= request && !HasExact(ls, request)
         && forall m | m in ls && m.pathType == Prefix && m.path <= request :: |m.path| <= |l.path|
  }

  ghost predicate RulesSendTo(ls: seq<Loc>, request: string, backend: string) {
    exists l :: RuleChoice(ls, request, l) && l.backend == backend
  }

  ghost predicate NginxSendsTo(ls: seq<Loc>, request: string, backend: string) {
    exists l :: NginxChoice(ls, request, l) && l.backend == backend
  }

  /** The template renders every location of the server as a regular expression if this holds of one. */
  predicate EnforceRegex(ls: seq<Loc>) {
    exists l | l in ls :: NeedsRewrite(l) || l.useRegex
  }

  predicate Clash(l: Loc, m: Loc) {
    l.pathType == m.pathType &&
    if l.pathType == Exact then l.path == m.path else Normalize(l.path) == Normalize(m.path)
  }

  /** No two rules claim the same exact path or the same normalised prefix. */
  predicate NoClash(ls: seq<Loc>) {
    forall i, j | 0 <= i < j < |ls| :: !Clash(ls[i], ls[j])
  }

  /** nginx refuses a server block in which two locations have the same modifier and path. */
  predicate NoDuplicateLocation(ls: seq<Loc>) {
    forall i, j | 0 <= i < j < |ls| :: !(ls[i].pathType == ls[j].pathType && ls[i].path == ls[j].path)
  }

  // ----- Which locations the compiler produces -----

  lemma {:induction false} CompiledFrom(ls: seq<Loc>, exacts: set<string>, m: Loc)
    ensures m in CompileWith(ls, exacts) <==> exists l :: l in ls && m in CompileOne(l, exacts)
  {
    if ls != [] {
      var init, l := ls[..|ls| - 1], ls[|ls| - 1];
      CompiledFrom(init, exacts, m);
      assert ls == init + [l];
    }
  }

  lemma Compiles(ls: seq<Loc>, l: Loc, m: Loc)
    requires l in ls && m in CompileOne(l, ExactPaths(ls))
    ensures m in Compile(ls)
  {
    CompiledFrom(ls, ExactPaths(ls), m);
  }

  lemma BackendKept(l: Loc, exacts: set<string>, m: Loc)
    requires m in CompileOne(l, exacts)
    ensures m.backend == l.backend
  {
  }

  lemma Source(ls: seq<Loc>, m: Loc) returns (l: Loc)
    requires m in Compile(ls)
    ensures l in ls && m in CompileOne(l, ExactPaths(ls)) && m.backend == l.backend
  {
    CompiledFrom(ls, ExactPaths(ls), m);
    l :| l in ls && m in CompileOne(l, ExactPaths(ls));
    BackendKept(l, ExactPaths(ls), m);
  }

  /** The location is rendered as a regular expression once it is compiled.  Compiling can itself create a
      rewrite: a target equal to the written path differs from the normalised one. */
  predicate TurnsRegex(l: Loc) {
    l.useRegex || (l.rewriteTarget != "" &&
                   (l.rewriteTarget != l.path || (l.pathType == Prefix && Normalize(l.path) != l.path)))
  }

  predicate PlainRule(l: Loc) {
    !TurnsRegex(l)
  }

  predicate Plain(ls: seq<Loc>) {
    forall l | l in ls :: PlainRule(l)
  }

  /** The location that carries a Prefix rule in the output, under its normalised path. */
  function AsPrefix(l: Loc): Loc {
    l.(path := Normalize(l.path), ingressPath := if l.path == ROOT then l.ingressPath else l.path)
  }

  lemma CompileOnePlain(l: Loc, exacts: set<string>)
    requires PlainRule(l)
    ensures l.pathType == Exact ==> forall m | m in CompileOne(l, exacts) :: m.pathType == Exact && m.path == l.path
    ensures l.pathType == Prefix ==>
              && AsPrefix(l) in CompileOne(l, exacts)
              && forall m | m in CompileOne(l, exacts) ::
                   m == AsPrefix(l) || (m.pathType == Exact && m.path == l.path && l.path != ROOT && l.path !in exacts)
    ensures l.pathType == Exact || (l.path != ROOT && l.path !in exacts) ==>
              exists m | m in CompileOne(l, exacts) :: m.pathType == Exact && m.path == l.path && m.backend == l.backend
  {
    var ms := CompileOne(l, exacts);
    if l.pathType == Exact || l.path == ROOT || l.path in exacts {
      assert ms[0] in ms;
    } else {
      assert ms[0] in ms && ms[1] in ms;
    }
  }

  /** An exact location of the output is there for an Exact rule or for a Prefix rule with that very path. */
  lemma ExactOutput(ls: seq<Loc>, request: string)
    requires Plain(ls)
    ensures HasExact(Compile(ls), request) <==>
            || request in ExactPaths(ls)
            || exists l :: l in ls && l.pathType == Prefix && l.path == request && request != ROOT
  {
    var exacts := ExactPaths(ls);
    if HasExact(Compile(ls), request) {
      var m :| m in Compile(ls) && m.pathType == Exact && m.path == request;
      var l := Source(ls, m);
      CompileOnePlain(l, exacts);
    }
    if request in exacts {
      var l :| l in ls && l.pathType == Exact && l.path == request;
      CompileOnePlain(l, exacts);
      var m :| m in CompileOne(l, exacts) && m.pathType == Exact && m.path == l.path;
      Compiles(ls, l, m);
    } else if l :| l in ls && l.pathType == Prefix && l.path == request && request != ROOT {
      CompileOnePlain(l, exacts);
      var m :| m in CompileOne(l, exacts) && m.pathType == Exact && m.path == l.path;
      Compiles(ls, l, m);
    }
  }

  /** A prefix location of the output is there for a Prefix rule with that normalised path. */
  lemma PrefixOutput(ls: seq<Loc>, m: Loc) returns (l: Loc)
    requires Plain(ls) && m in Compile(ls) && m.pathType == Prefix
    ensures l in ls && l.pathType == Prefix && m == AsPrefix(l)
  {
    l := Source(ls, m);
    CompileOnePlain(l, ExactPaths(ls));
  }

  lemma PrefixesAgree(p: string, q: string, r: string)
    requires p <= r && q <= r && |p| <= |q|
    ensures p <= q
  {
    assert p == r[..|p|] && q == r[..|q|];
  }

  // ----- Routing is preserved -----

  /** The rule is answered by an exact location of nginx. */
  predicate AnswersExactly(l: Loc, request: string) {
    l.pathType == Exact || (l.path == request && request != ROOT)
  }

  /** The nginx location that stands for a rule that answers the request: an exact one for the request itself, or the
      rule's path in its normalised form. */
  predicate StandsFor(m: Loc, l: Loc, request: string) {
    && m.backend == l.backend && (m.pathType == Exact <==> AnswersExactly(l, request))
    && m.path == if m.pathType == Exact then request else Normalize(l.path)
  }

  lemma RulesToNginx(ls: seq<Loc>, request: string, l: Loc) returns (m: Loc)
    requires Plain(ls) && RuleChoice(ls, request, l)
    ensures NginxChoice(Compile(ls), request, m) && StandsFor(m, l, request)
    ensures NginxSendsTo(Compile(ls), request, l.backend)
  {
    if AnswersExactly(l, request) {
      m := ExactRuleToNginx(ls, request, l);
    } else {
      m := PrefixRuleToNginx(ls, request, l);
    }
  }

  lemma ExactRuleToNginx(ls: seq<Loc>, request: string, l: Loc) returns (m: Loc)
    requires Plain(ls) && RuleChoice(ls, request, l) && AnswersExactly(l, request)
    ensures NginxChoice(Compile(ls), request, m) && StandsFor(m, l, request)
  {
    var exacts := ExactPaths(ls);
    assert l.pathType == Prefix ==> request !in exacts by {
      assert forall e | e in ls && e.pathType == Exact && e.path == request :: MatchesRule(e, request);
    }
    CompileOnePlain(l, exacts);
    m :| m in CompileOne(l, exacts) && m.pathType == Exact && m.path == l.path && m.backend == l.backend;
    Compiles(ls, l, m);
  }

  lemma PrefixRuleToNginx(ls: seq<Loc>, request: string, l: Loc) returns (m: Loc)
    requires Plain(ls) && RuleChoice(ls, request, l) && !AnswersExactly(l, request)
    ensures NginxChoice(Compile(ls), request, m) && StandsFor(m, l, request)
  {
    m := AsPrefix(l);
    CompileOnePlain(l, ExactPaths(ls));
    Compiles(ls, l, m);
    NoExactBeside(ls, request, l);
    forall q | q in Compile(ls) && q.pathType == Prefix && q.path <= request ensures |q.path| <= |m.path| {
      OutputNoLonger(ls, request, l, q);
    }
  }

  lemma OutputNoLonger(ls: seq<Loc>, request: string, l: Loc, m: Loc)
    requires Plain(ls) && RuleChoice(ls, request, l) && l.pathType == Prefix && Normalize(l.path) <= request
    requires m in Compile(ls) && m.pathType == Prefix && m.path <= request
    ensures |m.path| <= |Normalize(l.path)|
  {
    var q := PrefixOutput(ls, m);
    assert MatchesRule(q, request);
    PrefixesAgree(q.path, l.path, request);
  }

  /** When a Prefix rule wins for a longer path, the output has no exact location for that path. */
  lemma NoExactBeside(ls: seq<Loc>, request: string, l: Loc)
    requires Plain(ls) && RuleChoice(ls, request, l) && l.pathType == Prefix
    requires Normalize(l.path) <= request && (l.path != request || request == ROOT)
    ensures !HasExact(Compile(ls), request)
  {
    ExactOutput(ls, request);
    assert forall e | e in ls && e.path == request :: MatchesRule(e, request);
  }

  lemma NginxToRules(ls: seq<Loc>, request: string, m: Loc) returns (l: Loc)
    requires Plain(ls) && NoClash(ls) && NginxChoice(Compile(ls), request, m)
    ensures RuleChoice(ls, request, l) && StandsFor(m, l, request)
    ensures RulesSendTo(ls, request, m.backend)
  {
    l := Source(ls, m);
    var exacts := ExactPaths(ls);
    CompileOnePlain(l, exacts);
    if m.pathType == Exact {
      forall q | q in ls && MatchesRule(q, request)
        ensures q == l || l.pathType == Exact || (q.pathType == Prefix && |q.path| <= |l.path|)
      {
        assert q.pathType == Exact ==> q.path in exacts;
      }
    } else {
      ExactOutput(ls, request);
      forall q | q in ls && MatchesRule(q, request)
        ensures q == l || (q.pathType == Prefix && |q.path| <= |l.path|)
      {
        LongestPrefix(ls, request, l, q);
      }
    }
  }

  lemma LongestPrefix(ls: seq<Loc>, request: string, l: Loc, q: Loc)
    requires Plain(ls) && NoClash(ls) && l in ls && l.pathType == Prefix && q in ls && MatchesRule(q, request)
    requires NginxChoice(Compile(ls), request, AsPrefix(l))
    ensures q == l || (q.pathType == Prefix && |q.path| <= |l.path|)
  {
    ExactOutput(ls, request);
    assert q.pathType == Exact ==> q.path in ExactPaths(ls);
    CompileOnePlain(q, ExactPaths(ls));
    Compiles(ls, q, AsPrefix(q));
    assert Normalize(q.path) <= request;
    if |q.path| > |l.path| {
      PrefixesAgree(Normalize(q.path), Normalize(l.path), request);
      assert Normalize(q.path) == Normalize(l.path);
      var i :| 0 <= i < |ls| && ls[i] == q;
      var j :| 0 <= j < |ls| && ls[j] == l;
      assert Clash(ls[i], ls[j]) && Clash(ls[j], ls[i]);
      assert i == j;
    }
  }

  /** For every request path nginx sends the compiled server to the backend the rules name, provided that
      the server is not rendered with regular expressions and no two rules clash. */
  lemma RoutingPreserved(ls: seq<Loc>, request: string, backend: string)
    requires Plain(ls) && NoClash(ls)
    ensures NginxSendsTo(Compile(ls), request, backend) <==> RulesSendTo(ls, request, backend)
  {
    if RulesSendTo(ls, request, backend) {
      var l :| RuleChoice(ls, request, l) && l.backend == backend;
      var m := RulesToNginx(ls, request, l);
    }
    if NginxSendsTo(Compile(ls), request, backend) {
      var m :| NginxChoice(Compile(ls), request, m) && m.backend == backend;
      var l := NginxToRules(ls, request, m);
    }
  }

  /** A Prefix rule never captures a path that only continues its last segment: /foo does not take /foobar. */
  lemma PrefixKeepsToSegments(p: string, rest: string, backend: string)
    requires p != "" && p[|p| - 1] != '/' && rest != "" && rest[0] != '/'
    ensures var l := Loc(p, Prefix, "", backend, "", false);
            forall b :: !NginxSendsTo(Compile([l]), p + rest, b)
  {
    var l := Loc(p, Prefix, "", backend, "", false);
    forall b ensures !NginxSendsTo(Compile([l]), p + rest, b) {
      RoutingPreserved([l], p + rest, b);
      assert !MatchesRule(l, p + rest) by {
        assert (p + rest)[|p|] == rest[0] && (p + "/")[|p|] == '/';
      }
    }
  }

  /** In a server block without duplicates at most one location answers. */
  lemma NginxChoiceUnique(ls: seq<Loc>, request: string, l: Loc, m: Loc)
    requires NoDuplicateLocation(ls) && NginxChoice(ls, request, l) && NginxChoice(ls, request, m)
    ensures l == m
  {
    var i :| 0 <= i < |ls| && ls[i] == l;
    var j :| 0 <= j < |ls| && ls[j] == m;
    assert l.pathType == m.pathType;
    if l.pathType == Prefix {
      assert l.path == request[..|l.path|] && m.path == request[..|m.path|];
    }
    assert l.path == m.path;
  }

  // ----- When nginx accepts the compiled server -----

  lemma ConcatNoDuplicate(a: seq<Loc>, b: seq<Loc>)
    ensures NoDuplicateLocation(a + b) <==>
            && NoDuplicateLocation(a) && NoDuplicateLocation(b)
            && forall l, m | l in a && m in b :: !(l.pathType == m.pathType && l.path == m.path)
  {
    var c := a + b;
    if NoDuplicateLocation(c) {
      forall i, j | 0 <= i < j < |a| ensures !(a[i].pathType == a[j].pathType && a[i].path == a[j].path) {
        assert c[i] == a[i] && c[j] == a[j];
      }
      forall i, j | 0 <= i < j < |b| ensures !(b[i].pathType == b[j].pathType && b[i].path == b[j].path) {
        assert c[|a| + i] == b[i] && c[|a| + j] == b[j];
      }
      forall l, m | l in a && m in b ensures !(l.pathType == m.pathType && l.path == m.path) {
        var i :| 0 <= i < |a| && a[i] == l;
        var j :| 0 <= j < |b| && b[j] == m;
        assert c[i] == l && c[|a| + j] == m;
      }
    }
  }

  /** Two rules meet in the output exactly when they clash. */
  lemma MeetIffClash(l: Loc, m: Loc, exacts: set<string>)
    requires PlainRule(l) && PlainRule(m)
    requires l.pathType == Exact ==> l.path in exacts
    requires m.pathType == Exact ==> m.path in exacts
    ensures (exists x, y :: x in CompileOne(l, exacts) && y in CompileOne(m, exacts)
                            && x.pathType == y.pathType && x.path == y.path) <==> Clash(l, m)
  {
    CompileOnePlain(l, exacts);
    CompileOnePlain(m, exacts);
    if Clash(l, m) && l.pathType == Prefix {
      assert AsPrefix(l).path == AsPrefix(m).path;
    }
  }

  lemma {:induction false} CompileNoDuplicate(ls: seq<Loc>, exacts: set<string>)
    requires Plain(ls) && ExactPaths(ls) <= exacts
    ensures NoDuplicateLocation(CompileWith(ls, exacts)) <==> NoClash(ls)
  {
    if ls != [] {
      var init, m := ls[..|ls| - 1], ls[|ls| - 1];
      assert ls == init + [m];
      assert ExactPaths(init) <= ExactPaths(ls);
      CompileNoDuplicate(init, exacts);
      ConcatNoDuplicate(CompileWith(init, exacts), CompileOne(m, exacts));
      LastMeets(init, m, exacts);
      OwnNoDuplicate(m, exacts);
    }
  }

  lemma OwnNoDuplicate(m: Loc, exacts: set<string>)
    ensures NoDuplicateLocation(CompileOne(m, exacts))
  {
  }

  lemma LastMeets(init: seq<Loc>, m: Loc, exacts: set<string>)
    requires Plain(init + [m]) && ExactPaths(init + [m]) <= exacts
    ensures (forall x, y | x in CompileWith(init, exacts) && y in CompileOne(m, exacts) ::
               !(x.pathType == y.pathType && x.path == y.path)) <==>
            forall l | l in init :: !Clash(l, m)
  {
    assert m in init + [m];
    forall l | l in init
      ensures (exists x, y :: x in CompileOne(l, exacts) && y in CompileOne(m, exacts)
                              && x.pathType == y.pathType && x.path == y.path) <==> Clash(l, m)
      ensures forall x | x in CompileOne(l, exacts) :: x in CompileWith(init, exacts)
    {
      assert l in init + [m];
      assert l.pathType == Exact ==> l.path in ExactPaths(init + [m]);
      assert m.pathType == Exact ==> m.path in ExactPaths(init + [m]);
      MeetIffClash(l, m, exacts);
      forall x | x in CompileOne(l, exacts) ensures x in CompileWith(init, exacts) {
        CompiledFrom(init, exacts, x);
      }
    }
    forall x | x in CompileWith(init, exacts) ensures exists l :: l in init && x in CompileOne(l, exacts) {
      CompiledFrom(init, exacts, x);
    }
  }

  /** The compiled server has no duplicate location exactly when the rules do not clash. */
  lemma AcceptedIffNoClash(ls: seq<Loc>)
    requires Plain(ls)
    ensures NoDuplicateLocation(Compile(ls)) <==> NoClash(ls)
  {
    CompileNoDuplicate(ls, ExactPaths(ls));
  }

  // ----- When the compiled server is rendered with regular expressions after all -----

  lemma RegexAfterCompile(ls: seq<Loc>)
    ensures EnforceRegex(Compile(ls)) <==> exists l :: l in ls && TurnsRegex(l)
  {
    var exacts := ExactPaths(ls);
    if EnforceRegex(Compile(ls)) {
      var m :| m in Compile(ls) && (NeedsRewrite(m) || m.useRegex);
      var l := Source(ls, m);
      assert TurnsRegex(l);
    }
    if l :| l in ls && TurnsRegex(l) {
      var m := CompileOne(l, exacts)[0];
      assert m in CompileOne(l, exacts);
      Compiles(ls, l, m);
    }
  }

  /** The servers that are rendered without regular expressions are exactly the plain ones. */
  lemma PlainIsRenderedPlain(ls: seq<Loc>)
    ensures Plain(ls) <==> !EnforceRegex(Compile(ls))
  {
    RegexAfterCompile(ls);
  }

  /** A server in which nothing is rewritten as written, and which is nevertheless rendered with regular
      expressions. */
  lemma RewriteToItselfTurnsRegex()
    ensures var l := Loc("/foo", Prefix, "", "b", "/foo", false);
            !EnforceRegex([l]) && EnforceRegex(Compile([l]))
  {
    var l := Loc("/foo", Prefix, "", "b", "/foo", false);
    assert Normalize("/foo") == "/foo/";
    assert l in [l] && TurnsRegex(l);
    RegexAfterCompile([l]);
  }

  /** A server with a "/" location still has it, with its type and backend, after compiling. */
  lemma RootKept(ls: seq<Loc>, l: Loc)
    requires l in ls && l.path == ROOT
    ensures l in Compile(ls)
  {
    assert CompileOne(l, ExactPaths(ls)) == [l];
    Compiles(ls, l, l);
  }

  // ----- What the compiler does to any location -----

  /** Every compiled location stems from one of the input and differs from it in path and type at most: a Prefix path
      gets a "/" at its end, or becomes Exact as it is, if no Exact rule has it already.  It remembers the path as
      given, unless it is the root. */
  lemma CompiledStemsFrom(ls: seq<Loc>, m: Loc)
    requires m in Compile(ls)
    ensures exists l | l in ls ::
              && m == l.(path := m.path, pathType := m.pathType,
                         ingressPath := if l.path == "/" then l.ingressPath else l.path)
              && ((m.pathType == l.pathType && m.path == l.path)
                  || (l.pathType == Prefix && m.pathType == Prefix && m.path == l.path + "/")
                  || (l.pathType == Prefix && m.pathType == Exact && m.path == l.path
                      && forall q | q in ls && q.pathType == Exact :: q.path != l.path))
  {
    var l := Source(ls, m);
  }

  /** The location is to be matched as a regular expression: it says so, or it is rewritten to something else than the
      path that its Ingress gives. */
  predicate AskedAsRegex(l: Loc, given: string) {
    l.useRegex || (l.rewriteTarget != "" && l.rewriteTarget != given)
  }

  /** Locations that are matched as regular expressions come out exactly as they went in: with the path and the type of
      their Ingress, and without an exact copy. */
  lemma RegexKeptAsWritten(ls: seq<Loc>, m: Loc)
    ensures m in Compile(ls) && m.path != "/" && AskedAsRegex(m, m.ingressPath) <==>
            exists l | l in ls :: l.path != "/" && AskedAsRegex(l, l.path) && m == l.(ingressPath := l.path)
  {
    if m in Compile(ls) && m.path != "/" && AskedAsRegex(m, m.ingressPath) {
      var l := Source(ls, m);
      assert AskedAsRegex(l, l.path);
    }
    if l :| l in ls && l.path != "/" && AskedAsRegex(l, l.path) && m == l.(ingressPath := l.path) {
      Compiles(ls, l, m);
    }
  }
}
