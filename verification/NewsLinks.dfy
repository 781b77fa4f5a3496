/**
 Posts and redirect rules together: every write the admin API makes to either, and what any run
 of such writes keeps of the links that were once published.
 */
module NewsLinks {
  import opened Wrappers
  import opened Redirects

  type Former = map<nat, set<Path>>

  /** Ids of new rows are chosen by the database. */
  datatype Step =
    | CreatePost(id: nat, slug: Slug, isPublished: bool)
    | UpdatePost(id: nat, newSlug: Option<Slug>, published: Option<bool>, newRule: nat)
    | PublishPost(id: nat, nextState: bool)
    | RemovePost(id: nat)
    | AddRule(newRule: nat, from: Path, to: Path)
    | EditRule(rule: nat, newFrom: Option<Path>, newTo: Option<Path>)
    | RemoveRule(rule: nat)

  predicate Enabled(s: Site, step: Step) {
    match step
    case CreatePost(id, _, _) => id !in s.posts
    case UpdatePost(_, _, _, newRule) => newRule !in s.rules
    case AddRule(newRule, _, _) => newRule !in s.rules
    case _ => true
  }

  predicate Taken(s: Site, slug: Slug, except: Option<nat>) {
    exists i | i in s.posts :: s.posts[i].slug == slug && Some(i) != except
  }

  function Refused(s: Site, step: Step): Option<Refusal> {
    match step
    case CreatePost(_, slug, _) => if Taken(s, slug, None) then Some(SlugTaken) else None
    case UpdatePost(id, newSlug, _, _) =>
      if newSlug.Some? && Taken(s, newSlug.value, Some(id)) then Some(SlugTaken)
      else if id !in s.posts then Some(NotFound) else None
    case PublishPost(id, _) => if id !in s.posts then Some(NotFound) else None
    case RemovePost(id) => if id !in s.posts then Some(NotFound) else None
    case AddRule(_, from, to) => if from == to then Some(Invalid) else AssertNoChain(s.rules, None, from, to)
    case EditRule(rule, newFrom, newTo) =>
      if rule !in s.rules then Some(NotFound)
      else
        var from, to := Or(newFrom, s.rules[rule].fromPath), Or(newTo, s.rules[rule].toPath);
        if from == to then Some(Invalid) else AssertNoChain(s.rules, Some(rule), from, to)
    case RemoveRule(rule) => if rule !in s.rules then Some(NotFound) else None
  }

  /** What saving a post whose slug goes from `was` to `now` does to the rules. */
  function Saved(rules: map<nat, Rule>, newRule: nat, was: Post, now: Slug): map<nat, Rule> {
    if was.slug == now then rules
    else if was.isPublished then Rename(rules, newRule, PathOf(was.slug), PathOf(now))
    else ClearInto(rules, PathOf(now))
  }

  function After(s: Site, step: Step): Site {
    if Refused(s, step).Some? then s else
    match step
    case CreatePost(id, slug, isPublished) =>
      Site(ClearInto(s.rules, PathOf(slug)), s.posts[id := Post(slug, isPublished)])
    case UpdatePost(id, newSlug, published, newRule) =>
      var was := s.posts[id];
      var now := Post(Or(newSlug, was.slug), Or(published, was.isPublished));
      Site(Saved(s.rules, newRule, was, now.slug), s.posts[id := now])
    case PublishPost(id, nextState) => s.(posts := s.posts[id := s.posts[id].(isPublished := nextState)])
    case RemovePost(id) => s.(posts := s.posts - {id})
    case AddRule(newRule, from, to) => s.(rules := s.rules[newRule := Rule(from, to)])
    case EditRule(rule, newFrom, newTo) =>
      s.(rules := s.rules[rule := Rule(Or(newFrom, s.rules[rule].fromPath), Or(newTo, s.rules[rule].toPath))])
    case RemoveRule(rule) => s.(rules := s.rules - {rule})
  }

  ghost predicate SlugsUnique(posts: map<nat, Post>) {
    forall i, j | i in posts && j in posts && posts[i].slug == posts[j].slug :: i == j
  }

  ghost predicate ValidSite(s: Site) {
    NoChain(s.rules) && SlugsUnique(s.posts)
  }

  lemma SavedKeepsNoChain(rules: map<nat, Rule>, newRule: nat, was: Post, now: Slug)
    requires NoChain(rules) && newRule !in rules
    ensures NoChain(Saved(rules, newRule, was, now))
    ensures was.slug != now ==> !IsSource(Saved(rules, newRule, was, now), PathOf(now))
  {
    PathsDiffer(was.slug, now);
    if was.slug != now {
      if was.isPublished {
        RenameKeepsNoChain(rules, newRule, PathOf(was.slug), PathOf(now));
      } else {
        ClearKeepsNoChain(rules, PathOf(now));
      }
    }
  }

  lemma SubtableKeepsNoChain(rules: map<nat, Rule>, rule: nat)
    requires NoChain(rules)
    ensures NoChain(rules - {rule})
  {
  }

  /** No write, by an editor or by an administrator, makes the table chain or two posts share a slug. */
  lemma StepKeepsValid(s: Site, step: Step)
    requires ValidSite(s) && Enabled(s, step)
    ensures ValidSite(After(s, step))
  {
    if Refused(s, step).None? {
      match step
      case CreatePost(_, slug, _) => ClearKeepsNoChain(s.rules, PathOf(slug));
      case UpdatePost(id, newSlug, _, newRule) =>
        SavedKeepsNoChain(s.rules, newRule, s.posts[id], Or(newSlug, s.posts[id].slug));
      case PublishPost(_, _) =>
      case RemovePost(_) =>
      case AddRule(newRule, from, to) => GuardIsExact(s.rules, None, newRule, from, to);
      case EditRule(rule, newFrom, newTo) =>
        GuardIsExact(s.rules, Some(rule), rule, Or(newFrom, s.rules[rule].fromPath), Or(newTo, s.rules[rule].toPath));
      case RemoveRule(rule) => SubtableKeepsNoChain(s.rules, rule);
    }
  }

  lemma FreeExactly(posts: map<nat, Post>, id: nat, row: Post)
    requires SlugsUnique(posts)
    ensures SlugsUnique(posts[id := row]) <==> forall i | i in posts && i != id :: posts[i].slug != row.slug
  {
    var after := posts[id := row];
    assert after[id] == row && forall i | i in posts && i != id :: i in after && after[i] == posts[i];
  }

  /** A write is accepted exactly if what it is about exists, and slugs stay unique and the table without chains. */
  lemma AcceptedExactly(s: Site, step: Step)
    requires ValidSite(s) && Enabled(s, step)
    ensures Refused(s, step).None? <==>
            match step
            case CreatePost(id, slug, isPublished) => SlugsUnique(s.posts[id := Post(slug, isPublished)])
            case UpdatePost(id, newSlug, _, _) =>
              id in s.posts && SlugsUnique(s.posts[id := s.posts[id].(slug := Or(newSlug, s.posts[id].slug))])
            case PublishPost(id, _) => id in s.posts
            case RemovePost(id) => id in s.posts
            case AddRule(newRule, from, to) => NoChain(s.rules[newRule := Rule(from, to)])
            case EditRule(rule, newFrom, newTo) =>
              && rule in s.rules
              && NoChain(s.rules[rule := Rule(Or(newFrom, s.rules[rule].fromPath), Or(newTo, s.rules[rule].toPath))])
            case RemoveRule(rule) => rule in s.rules
  {
    match step
    case CreatePost(id, slug, isPublished) => FreeExactly(s.posts, id, Post(slug, isPublished));
    case UpdatePost(id, newSlug, _, _) =>
      if id in s.posts {
        FreeExactly(s.posts, id, s.posts[id].(slug := Or(newSlug, s.posts[id].slug)));
      }
    case AddRule(newRule, from, to) => GuardIsExact(s.rules, None, newRule, from, to);
    case EditRule(rule, newFrom, newTo) =>
      if rule in s.rules {
        GuardIsExact(s.rules, Some(rule), rule, Or(newFrom, s.rules[rule].fromPath), Or(newTo, s.rules[rule].toPath));
      }
    case _ =>
  }

  /** What an accepted write makes of post `i`; a refused one changes nothing. */
  lemma PostsChange(s: Site, step: Step, i: nat)
    requires Enabled(s, step)
    ensures Refused(s, step).Some? ==> After(s, step) == s
    ensures Refused(s, step).None? ==>
              var posts := After(s, step).posts;
              && (i in posts <==>
                   (i in s.posts || (step.CreatePost? && step.id == i)) && !(step.RemovePost? && step.id == i))
              && (i in posts ==>
                   match step
                   case CreatePost(id, slug, isPublished) =>
                     posts[i] == if id == i then Post(slug, isPublished) else s.posts[i]
                   case UpdatePost(id, newSlug, published, _) =>
                     && posts[i].slug == (if id == i && newSlug.Some? then newSlug.value else s.posts[i].slug)
                     && posts[i].isPublished ==
                        (if id == i && published.Some? then published.value else s.posts[i].isPublished)
                   case PublishPost(id, nextState) =>
                     posts[i] == Post(s.posts[i].slug, if id == i then nextState else s.posts[i].isPublished)
                   case _ => posts[i] == s.posts[i])
  {
  }

  // ---- live paths -----------------------------------------------------------------------

  ghost predicate PathsLive(s: Site) {
    forall i | i in s.posts :: !IsSource(s.rules, PathOf(s.posts[i].slug))
  }

  predicate ByEditor(step: Step) {
    !step.AddRule? && !step.EditRule?
  }

  /** Writes to posts never redirect a post's own path away; only a rule added or edited by hand can. */
  lemma EditorsKeepPathsLive(s: Site, step: Step)
    requires ValidSite(s) && Enabled(s, step) && PathsLive(s) && ByEditor(step)
    ensures PathsLive(After(s, step))
  {
    var after := After(s, step);
    forall i | i in after.posts ensures !IsSource(after.rules, PathOf(after.posts[i].slug)) {
      var x := PathOf(after.posts[i].slug);
      match step
      case CreatePost(_, slug, _) =>
        ClearKeepsNoChain(s.rules, PathOf(slug));
        assert IsSource(after.rules, x) ==> IsSource(s.rules, x);
      case UpdatePost(id, newSlug, _, newRule) =>
        if Refused(s, step).None? {
          SavedKeepsLive(s, id, Or(newSlug, s.posts[id].slug), newRule, x);
          assert i != id ==> after.posts[i] == s.posts[i];
          PathsDiffer(s.posts[id].slug, after.posts[i].slug);
        }
      case PublishPost(_, _) =>
      case RemovePost(_) =>
      case RemoveRule(_) =>
    }
  }

  lemma SavedKeepsLive(s: Site, id: nat, now: Slug, newRule: nat, x: Path)
    requires ValidSite(s) && id in s.posts && newRule !in s.rules
    ensures IsSource(Saved(s.rules, newRule, s.posts[id], now), x) ==>
              IsSource(s.rules, x) || (x == PathOf(s.posts[id].slug) && s.posts[id].slug != now)
    ensures s.posts[id].slug != now ==> !IsSource(Saved(s.rules, newRule, s.posts[id], now), PathOf(now))
  {
  }

  /** A rule is added, or edited, to lead away from the present path of a post. */
  ghost predicate RedirectsLive(s: Site, step: Step) {
    && Refused(s, step).None?
    && match step
       case AddRule(_, from, _) => IsPostPath(s.posts, from)
       case EditRule(rule, newFrom, _) => IsPostPath(s.posts, Or(newFrom, s.rules[rule].fromPath))
       case _ => false
  }

  lemma SourcesWithRule(rules: map<nat, Rule>, id: nat, rule: Rule, x: Path)
    ensures IsSource(rules[id := rule], x) ==> IsSource(rules, x) || x == rule.fromPath
    ensures IsSource(rules[id := rule], rule.fromPath)
  {
    assert rules[id := rule][id] == rule;
  }

  lemma RuleKeepsPathsLive(s: Site, id: nat, rule: Rule)
    requires PathsLive(s)
    ensures PathsLive(s.(rules := s.rules[id := rule])) <==> !IsPostPath(s.posts, rule.fromPath)
  {
    forall x {
      SourcesWithRule(s.rules, id, rule, x);
    }
  }

  /** The present paths of posts stay free of redirects exactly until a rule is put on one by hand. */
  lemma StepKeepsPathsLive(s: Site, step: Step)
    requires ValidSite(s) && Enabled(s, step) && PathsLive(s)
    ensures PathsLive(After(s, step)) <==> !RedirectsLive(s, step)
  {
    if ByEditor(step) {
      EditorsKeepPathsLive(s, step);
    } else if Refused(s, step).None? {
      match step
      case AddRule(newRule, from, to) => RuleKeepsPathsLive(s, newRule, Rule(from, to));
      case EditRule(rule, newFrom, newTo) =>
        RuleKeepsPathsLive(s, rule, Rule(Or(newFrom, s.rules[rule].fromPath), Or(newTo, s.rules[rule].toPath)));
    }
  }

  // ---- former paths ---------------------------------------------------------------------

  function Without(former: Former, path: Path): Former {
    map i | i in former :: former[i] - {path}
  }

  function Of(former: Former, id: nat): set<Path> {
    if id in former then former[id] else {}
  }

  /**
   The former paths of each post: those it was published under, given up by a rename while it
   was published, since it was last renamed as a draft. A path leaves the list when another post
   takes it, and when its rule is removed by hand or edited to say something else.
   */
  function Remember(s: Site, former: Former, step: Step): Former {
    if Refused(s, step).Some? then former else
    match step
    case CreatePost(id, slug, _) => Without(former, PathOf(slug))[id := {}]
    case UpdatePost(id, newSlug, _, _) =>
      var was, now := s.posts[id], Or(newSlug, s.posts[id].slug);
      if was.slug == now then former
      else
        var kept := Without(former, PathOf(now));
        kept[id := if was.isPublished then Of(kept, id) + {PathOf(was.slug)} else {}]
    case RemovePost(id) => former - {id}
    case EditRule(rule, newFrom, newTo) =>
      var now := Rule(Or(newFrom, s.rules[rule].fromPath), Or(newTo, s.rules[rule].toPath));
      if now == s.rules[rule] then former else Without(former, s.rules[rule].fromPath)
    case RemoveRule(rule) => Without(former, s.rules[rule].fromPath)
    case _ => former
  }

  ghost predicate IsPostPath(posts: map<nat, Post>, p: Path) {
    exists j :: j in posts && PathOf(posts[j].slug) == p
  }

  ghost predicate StillLeads(s: Site, id: nat, p: Path) {
    id in s.posts && Leads(s.rules, p, PathOf(s.posts[id].slug)) && !IsPostPath(s.posts, p)
  }

  /** Every former path leads to its post's present path, and is no post's present path. */
  ghost predicate FormerLead(s: Site, former: Former) {
    forall i, p | i in former && p in former[i] :: StillLeads(s, i, p)
  }

  lemma LeadsAfterRename(rules: map<nat, Rule>, id: nat, from: Path, to: Path, x: Path, y: Path)
    requires NoChain(rules) && id !in rules && from != to && x != from && x != to && Leads(rules, x, y)
    ensures Leads(Rename(rules, id, from, to), x, Subst(y, from, to))
  {
    RowsAfterRename(rules, id, from, to);
    var i :| i in rules && rules[i] == Rule(x, y);
    assert i in Rename(rules, id, from, to) && Rename(rules, id, from, to)[i] == Rule(x, Subst(y, from, to));
  }

  /** Renaming post `id` from `was` to `now`: what becomes of a path remembered for post `i`. */
  lemma SavedStillLeads(s: Site, id: nat, newRule: nat, now: Post, i: nat, p: Path)
    requires ValidSite(s) && id in s.posts && newRule !in s.rules && s.posts[id].slug != now.slug
    requires p != PathOf(now.slug)
    requires StillLeads(s, i, p) || (i == id && p == PathOf(s.posts[id].slug))
    requires i == id ==> s.posts[id].isPublished
    ensures StillLeads(Site(Saved(s.rules, newRule, s.posts[id], now.slug), s.posts[id := now]), i, p)
  {
    var was := s.posts[id];
    var rules := Saved(s.rules, newRule, was, now.slug);
    var posts := s.posts[id := now];
    PathsDiffer(was.slug, now.slug);
    if was.isPublished {
      var from, to := PathOf(was.slug), PathOf(now.slug);
      if p == from {
        RowsAfterRename(s.rules, newRule, from, to);
        assert rules[newRule] == Rule(from, to);
      } else {
        PathsDiffer(was.slug, s.posts[i].slug);
        LeadsAfterRename(s.rules, newRule, from, to, p, PathOf(s.posts[i].slug));
      }
    } else {
      ClearKeepsNoChain(s.rules, PathOf(now.slug));
    }
    forall j | j in posts ensures PathOf(posts[j].slug) != p {
      assert j != id ==> posts[j] == s.posts[j];
      PathsDiffer(was.slug, posts[j].slug);
    }
  }

  lemma StillLeadsWithoutRow(s: Site, rule: nat, s': Site, i: nat, p: Path)
    requires s'.posts == s.posts && forall r | r in s.rules && r != rule :: r in s'.rules && s'.rules[r] == s.rules[r]
    requires StillLeads(s, i, p) && (rule in s.rules ==> s.rules[rule].fromPath != p)
    ensures StillLeads(s', i, p)
  {
  }

  lemma StillLeadsPastNew(s: Site, id: nat, slug: Slug, isPublished: bool, i: nat, p: Path)
    requires NoChain(s.rules) && StillLeads(s, i, p) && id !in s.posts && p != PathOf(slug)
    ensures StillLeads(Site(ClearInto(s.rules, PathOf(slug)), s.posts[id := Post(slug, isPublished)]), i, p)
  {
    ClearKeepsNoChain(s.rules, PathOf(slug));
  }

  lemma StepKeepsFormer(s: Site, former: Former, step: Step)
    requires ValidSite(s) && Enabled(s, step) && FormerLead(s, former)
    ensures FormerLead(After(s, step), Remember(s, former, step))
  {
    var s', former' := After(s, step), Remember(s, former, step);
    forall i, p | i in former' && p in former'[i] ensures StillLeads(s', i, p) {
      FormerStillLeads(s, former, step, i, p);
    }
  }

  lemma FormerStillLeads(s: Site, former: Former, step: Step, i: nat, p: Path)
    requires ValidSite(s) && Enabled(s, step) && FormerLead(s, former)
    requires i in Remember(s, former, step) && p in Remember(s, former, step)[i]
    ensures StillLeads(After(s, step), i, p)
  {
    var s' := After(s, step);
    if Refused(s, step).None? {
      assert i in former && p in former[i] ==> StillLeads(s, i, p);
      match step
      case CreatePost(id, slug, isPublished) => StillLeadsPastNew(s, id, slug, isPublished, i, p);
      case UpdatePost(_, _, _, _) => UpdateStillLeads(s, former, step, i, p);
      case PublishPost(id, _) => SamePaths(s, s', i, p);
      case RemovePost(id) => SamePaths(s, s', i, p);
      case AddRule(newRule, _, _) => StillLeadsWithoutRow(s, newRule, s', i, p);
      case EditRule(rule, _, _) =>
        if s' != s {
          StillLeadsWithoutRow(s, rule, s', i, p);
        }
      case RemoveRule(rule) => StillLeadsWithoutRow(s, rule, s', i, p);
    }
  }

  lemma UpdateStillLeads(s: Site, former: Former, step: Step, i: nat, p: Path)
    requires ValidSite(s) && Enabled(s, step) && step.UpdatePost? && Refused(s, step).None?
    requires i in former && p in former[i] ==> StillLeads(s, i, p)
    requires i in Remember(s, former, step) && p in Remember(s, former, step)[i]
    ensures StillLeads(After(s, step), i, p)
  {
    var was, now := s.posts[step.id], After(s, step).posts[step.id];
    PathsDiffer(was.slug, now.slug);
    if was.slug != now.slug {
      SavedStillLeads(s, step.id, step.newRule, now, i, p);
    } else {
      SamePaths(s, After(s, step), i, p);
    }
  }

  lemma SamePaths(s: Site, s': Site, i: nat, p: Path)
    requires StillLeads(s, i, p) && i in s'.posts && s'.rules == s.rules
    requires forall j | j in s'.posts :: j in s.posts && s'.posts[j].slug == s.posts[j].slug
    ensures StillLeads(s', i, p)
  {
  }

  lemma UniqueTarget(rules: map<nat, Rule>, i: nat, p: Path, y: Path)
    requires OneRuleEach(rules) && Leads(rules, p, y) && i in rules && rules[i].fromPath == p
    ensures rules[i] == Rule(p, y)
  {
  }

  /** A rule that is gone, or says something else, leaves its old source without the old target. */
  lemma LeadsNoMore(s: Site, rule: nat, after: map<nat, Rule>, p: Path, y: Path)
    requires NoChain(s.rules) && Leads(s.rules, p, y) && rule in s.rules && s.rules[rule].fromPath == p
    requires forall i | i in after && i != rule :: i in s.rules && after[i] == s.rules[i]
    requires rule in after ==> after[rule] != s.rules[rule]
    ensures !Leads(after, p, y)
  {
    UniqueTarget(s.rules, rule, p, y);
  }

  /** A draft rename leaves the rules of its former paths on the path it had before. */
  lemma DraftRenameLosesFormer(s: Site, id: nat, newRule: nat, now: Post, p: Path)
    requires ValidSite(s) && id in s.posts && newRule !in s.rules && !s.posts[id].isPublished
    requires StillLeads(s, id, p) && s.posts[id].slug != now.slug && p != PathOf(now.slug)
    ensures var rules := Saved(s.rules, newRule, s.posts[id], now.slug);
            && Resolve(rules, p) == PathOf(s.posts[id].slug) != PathOf(now.slug)
            && !StillLeads(Site(rules, s.posts[id := now]), id, p)
  {
    var rules, was := Saved(s.rules, newRule, s.posts[id], now.slug), PathOf(s.posts[id].slug);
    PathsDiffer(s.posts[id].slug, now.slug);
    ClearKeepsNoChain(s.rules, PathOf(now.slug));
    ResolveLeads(rules, p, was);
    ResolveLeads(rules, p, PathOf(now.slug));
  }

  /** Exactly the remembered paths still lead to their post. */
  lemma StepRemembersExactly(s: Site, former: Former, step: Step, i: nat, p: Path)
    requires ValidSite(s) && Enabled(s, step) && FormerLead(s, former) && i in former && p in former[i]
    ensures StillLeads(After(s, step), i, p) <==> i in Remember(s, former, step) && p in Remember(s, former, step)[i]
  {
    if i in Remember(s, former, step) && p in Remember(s, former, step)[i] {
      FormerStillLeads(s, former, step, i, p);
    } else {
      ForgottenLeadsNoMore(s, former, step, i, p);
    }
  }

  lemma ForgottenLeadsNoMore(s: Site, former: Former, step: Step, i: nat, p: Path)
    requires ValidSite(s) && Enabled(s, step) && FormerLead(s, former) && i in former && p in former[i]
    requires !(i in Remember(s, former, step) && p in Remember(s, former, step)[i])
    ensures !StillLeads(After(s, step), i, p)
  {
    var s' := After(s, step);
    assert StillLeads(s, i, p);
    match step
    case CreatePost(id, _, _) => assert id in s'.posts;
    case UpdatePost(id, newSlug, _, newRule) =>
      assert id in s'.posts;
      if p != PathOf(s'.posts[id].slug) {
        DraftRenameLosesFormer(s, id, newRule, s'.posts[id], p);
      }
    case PublishPost(_, _) =>
    case RemovePost(_) =>
    case AddRule(_, _, _) =>
    case EditRule(rule, _, _) => LeadsNoMore(s, rule, s'.rules, p, PathOf(s.posts[i].slug));
    case RemoveRule(rule) => LeadsNoMore(s, rule, s'.rules, p, PathOf(s.posts[i].slug));
  }

  // ---- whole runs -----------------------------------------------------------------------

  ghost predicate Runs(s: Site, steps: seq<Step>)
    decreases |steps|
  {
    steps != [] ==> Enabled(s, steps[0]) && Runs(After(s, steps[0]), steps[1..])
  }

  function AfterAll(s: Site, steps: seq<Step>): Site
    decreases |steps|
  {
    if steps == [] then s else AfterAll(After(s, steps[0]), steps[1..])
  }

  function RememberAll(s: Site, former: Former, steps: seq<Step>): Former
    decreases |steps|
  {
    if steps == [] then former else RememberAll(After(s, steps[0]), Remember(s, former, steps[0]), steps[1..])
  }

  /**
   After any run of writes to posts and rules the table does not chain and every former path
   resolves, in one hop, to the path its post has then.
   */
  lemma {:induction false} FormerPathsResolve(s: Site, former: Former, steps: seq<Step>)
    requires ValidSite(s) && FormerLead(s, former) && Runs(s, steps)
    ensures ValidSite(AfterAll(s, steps)) && FormerLead(AfterAll(s, steps), RememberAll(s, former, steps))
    ensures var end, known := AfterAll(s, steps), RememberAll(s, former, steps);
            forall i, p | i in known && p in known[i] ::
              i in end.posts && Resolve(end.rules, p) == PathOf(end.posts[i].slug)
    decreases |steps|
  {
    if steps == [] {
      forall i, p | i in former && p in former[i] ensures Resolve(s.rules, p) == PathOf(s.posts[i].slug) {
        assert StillLeads(s, i, p);
        ResolveLeads(s.rules, p, PathOf(s.posts[i].slug));
      }
    } else {
      StepKeepsValid(s, steps[0]);
      StepKeepsFormer(s, former, steps[0]);
      FormerPathsResolve(After(s, steps[0]), Remember(s, former, steps[0]), steps[1..]);
    }
  }

  /** The step is accepted and changes the slug of post `id`. */
  predicate Renames(s: Site, step: Step, id: nat) {
    && step.UpdatePost? && step.id == id && Refused(s, step).None?
    && step.newSlug.Some? && step.newSlug.value != s.posts[id].slug
  }

  /** What makes `p` lead to post `id` no more. */
  predicate Loses(s: Site, step: Step, id: nat, p: Path) {
    && Refused(s, step).None?
    && match step
       case CreatePost(_, slug, _) => PathOf(slug) == p
       case UpdatePost(other, newSlug, _, _) =>
         Renames(s, step, other) && (PathOf(newSlug.value) == p || (other == id && !s.posts[id].isPublished))
       case RemovePost(other) => other == id
       case EditRule(rule, newFrom, newTo) =>
         s.rules[rule].fromPath == p && After(s, step).rules[rule] != s.rules[rule]
       case RemoveRule(rule) => s.rules[rule].fromPath == p
       case _ => false
  }

  lemma RenameIsRemembered(s: Site, former: Former, step: Step, id: nat)
    requires Renames(s, step, id) && s.posts[id].isPublished
    ensures PathOf(s.posts[id].slug) in Of(Remember(s, former, step), id)
  {
  }

  lemma StaysRemembered(s: Site, former: Former, step: Step, id: nat, p: Path)
    requires Enabled(s, step) && id in s.posts && p in Of(former, id) && !Loses(s, step, id, p)
    ensures p in Of(Remember(s, former, step), id) && id in After(s, step).posts
  {
    if step.UpdatePost? && Refused(s, step).None? {
      PathsDiffer(s.posts[step.id].slug, Or(step.newSlug, s.posts[step.id].slug));
    }
  }

  ghost predicate NeverLost(s: Site, steps: seq<Step>, id: nat, p: Path)
    decreases |steps|
  {
    steps != [] ==> !Loses(s, steps[0], id, p) && NeverLost(After(s, steps[0]), steps[1..], id, p)
  }

  lemma {:induction false} StaysRememberedAll(s: Site, former: Former, steps: seq<Step>, id: nat, p: Path)
    requires Runs(s, steps) && id in s.posts && p in Of(former, id) && NeverLost(s, steps, id, p)
    ensures p in Of(RememberAll(s, former, steps), id)
    decreases |steps|
  {
    if steps != [] {
      StaysRemembered(s, former, steps[0], id, p);
      StaysRememberedAll(After(s, steps[0]), Remember(s, former, steps[0]), steps[1..], id, p);
    }
  }

  /**
   The path a published post gives up by a rename resolves to its present path ever after, however
   often it is renamed again, unless another post takes the path, its rule is edited or removed by
   hand, or the post is removed or renamed as a draft.
   */
  lemma GivenUpPathResolves(s: Site, step: Step, id: nat, steps: seq<Step>)
    requires ValidSite(s) && Enabled(s, step) && Renames(s, step, id) && s.posts[id].isPublished
    requires Runs(After(s, step), steps) && NeverLost(After(s, step), steps, id, PathOf(s.posts[id].slug))
    ensures var end := AfterAll(After(s, step), steps);
            id in end.posts && Resolve(end.rules, PathOf(s.posts[id].slug)) == PathOf(end.posts[id].slug)
  {
    var p, s1, former := PathOf(s.posts[id].slug), After(s, step), Remember(s, map[], step);
    StepKeepsValid(s, step);
    StepKeepsFormer(s, map[], step);
    RenameIsRemembered(s, map[], step, id);
    StaysRememberedAll(s1, former, steps, id, p);
    FormerPathsResolve(s1, former, steps);
  }

  ghost predicate PathsResolveToThemselves(s: Site) {
    forall i | i in s.posts :: Resolve(s.rules, PathOf(s.posts[i].slug)) == PathOf(s.posts[i].slug)
  }

  lemma LiveResolves(s: Site)
    requires ValidSite(s)
    ensures PathsLive(s) <==> PathsResolveToThemselves(s)
  {
    forall i | i in s.posts && IsSource(s.rules, PathOf(s.posts[i].slug))
      ensures Resolve(s.rules, PathOf(s.posts[i].slug)) != PathOf(s.posts[i].slug)
    {
      var x := PathOf(s.posts[i].slug);
      ResolveLeads(s.rules, x, Resolve(s.rules, x));
    }
  }

  /** At the start, the end and everywhere between, present paths of posts resolve to themselves. */
  ghost predicate AlwaysResolve(s: Site, steps: seq<Step>)
    decreases |steps|
  {
    PathsResolveToThemselves(s) && (steps != [] ==> AlwaysResolve(After(s, steps[0]), steps[1..]))
  }

  ghost predicate NoneRedirectsLive(s: Site, steps: seq<Step>)
    decreases |steps|
  {
    steps != [] ==> !RedirectsLive(s, steps[0]) && NoneRedirectsLive(After(s, steps[0]), steps[1..])
  }

  /** All through a run no present path of a post is redirected away, exactly when no rule is put on one by hand. */
  lemma {:induction false} LivePathsResolveToThemselves(s: Site, steps: seq<Step>)
    requires ValidSite(s) && PathsLive(s) && Runs(s, steps)
    ensures AlwaysResolve(s, steps) <==> NoneRedirectsLive(s, steps)
    decreases |steps|
  {
    LiveResolves(s);
    if steps != [] {
      StepKeepsValid(s, steps[0]);
      StepKeepsPathsLive(s, steps[0]);
      if RedirectsLive(s, steps[0]) {
        LiveResolves(After(s, steps[0]));
      } else {
        LivePathsResolveToThemselves(After(s, steps[0]), steps[1..]);
      }
    }
  }

  // ---- two runs -------------------------------------------------------------------------

  /** The empty site with one published post. */
  function Started(slug: Slug): (s: Site)
    ensures s == Site(map[], map[1 := Post(slug, true)])
  {
    After(Site(map[], map[]), Step.CreatePost(1, slug, true))
  }

  function SlugTo(slug: Slug, newRule: nat): Step {
    Step.UpdatePost(1, Some(slug), None, newRule)
  }

  lemma FirstRename(a: Slug, b: Slug)
    requires a != b
    ensures After(Started(a), SlugTo(b, 1)) == Site(map[1 := Rule(PathOf(a), PathOf(b))], map[1 := Post(b, true)])
  {
    PathsDiffer(a, b);
    assert Rename(map[], 1, PathOf(a), PathOf(b)) == map[1 := Rule(PathOf(a), PathOf(b))];
  }

  lemma DraftRename(rule: Rule, b: Slug, c: Slug)
    requires b != c && rule.fromPath != PathOf(c) && rule.fromPath != rule.toPath
    ensures After(Site(map[1 := rule], map[1 := Post(b, false)]), SlugTo(c, 2)) ==
            Site(map[1 := rule], map[1 := Post(c, false)])
  {
    assert ClearInto(map[1 := rule], PathOf(c)) == map[1 := rule];
  }

  /** Published, renamed, withdrawn and renamed again: the first path leads where nothing is. */
  lemma DraftRenameForgets()
    ensures var s1 := After(Started("a"), SlugTo("b", 1));
            var s3 := After(After(s1, Step.PublishPost(1, false)), SlugTo("c", 2));
            && StillLeads(s1, 1, PathOf("a")) && s3.posts == map[1 := Post("c", false)]
            && Resolve(s3.rules, PathOf("a")) == PathOf("b") && !IsPostPath(s3.posts, PathOf("b"))
  {
    FirstRename("a", "b");
    PathsDiffer("a", "b");
    PathsDiffer("b", "c");
    PathsDiffer("a", "c");
    var rules := map[1 := Rule(PathOf("a"), PathOf("b"))];
    OneRule(rules[1]);
    assert map[1 := Post("b", true)][1 := Post("b", false)] == map[1 := Post("b", false)];
    DraftRename(rules[1], "b", "c");
  }

  lemma OneRule(rule: Rule)
    ensures Leads(map[1 := rule], rule.fromPath, rule.toPath) && Resolve(map[1 := rule], rule.fromPath) == rule.toPath
  {
    assert map[1 := rule][1] == rule;
  }

  lemma RuleReplaced(a: Path, b: Path, target: Path)
    requires a != b && a != target && b != target
    ensures Rename(map[1 := Rule(a, target)], 2, a, b) == map[2 := Rule(a, b)]
    ensures Resolve(map[2 := Rule(a, b)], a) == b
  {
    assert map[2 := Rule(a, b)][2] == Rule(a, b);
  }

  /**
   A rule put on a live path, and then a rename of its post: the link goes to the new path, not to
   the rule's target.
   */
  lemma HandRuleIsReplaced()
    ensures var s1 := After(Started("a"), AddRule(1, PathOf("a"), "/old"));
            var s2 := After(s1, SlugTo("b", 2));
            && Resolve(s1.rules, PathOf("a")) == "/old" && s2.rules == Rename(s1.rules, 2, PathOf("a"), PathOf("b"))
            && Resolve(s2.rules, PathOf("a")) == PathOf("b") !=
                 Subst(Resolve(s1.rules, PathOf("a")), PathOf("a"), PathOf("b"))
  {
    var a, b, other := PathOf("a"), PathOf("b"), "/old";
    PathsDiffer("a", "b");
    assert a[1] == 'n' && b[1] == 'n' && other[1] == 'o';
    assert After(Started("a"), AddRule(1, a, other)).rules == map[1 := Rule(a, other)];
    OneRule(Rule(a, other));
    RuleReplaced(a, b, other);
  }

  // ---- the controllers ------------------------------------------------------------------

  class AdminApi {
    var posts: map<nat, Post>
    var rules: map<nat, Rule>

    function View(): Site
      reads this
    {
      Site(rules, posts)
    }

    method ClearRedirectsInto(path: Path)
      modifies this`rules
      ensures rules == ClearInto(old(rules), path)
    {
      rules := ClearInto(rules, path);
    }

    method CreatePost(id: nat, slug: Slug, isPublished: bool) returns (r: Result<Post, Refusal>)
      requires Enabled(View(), Step.CreatePost(id, slug, isPublished))
      modifies this
      ensures View() == After(old(View()), Step.CreatePost(id, slug, isPublished))
      ensures if r.Ok? then id in posts && r.value == posts[id]
              else Refused(old(View()), Step.CreatePost(id, slug, isPublished)) == Some(r.error)
    {
      if Taken(View(), slug, None) {
        return Err(SlugTaken);
      }
      posts := posts[id := Post(slug, isPublished)];
      ClearRedirectsInto(PathOf(slug));
      r := Ok(posts[id]);
    }

    method SaveWithRedirect(id: nat, entity: Post, before: Post, newRule: nat)
      requires id in posts && newRule !in rules
      modifies this
      ensures posts == old(posts)[id := entity]
      ensures rules == Saved(old(rules), newRule, before, entity.slug)
    {
      posts := posts[id := entity];
      if before.slug == entity.slug {
        return;
      }
      var fromPath, toPath := PathOf(before.slug), PathOf(entity.slug);
      PathsDiffer(before.slug, entity.slug);
      if before.isPublished && fromPath != toPath {
        rules := Retarget(rules, fromPath, toPath);
        rules := DeleteFrom(rules, fromPath);
        rules := rules[newRule := Rule(fromPath, toPath)];
      }
      ClearRedirectsInto(toPath);
    }

    method UpdatePost(id: nat, newSlug: Option<Slug>, published: Option<bool>, newRule: nat)
      returns (r: Result<Post, Refusal>)
      requires Enabled(View(), Step.UpdatePost(id, newSlug, published, newRule))
      modifies this
      ensures View() == After(old(View()), Step.UpdatePost(id, newSlug, published, newRule))
      ensures if r.Ok? then id in posts && r.value == posts[id]
              else Refused(old(View()), Step.UpdatePost(id, newSlug, published, newRule)) == Some(r.error)
    {
      if newSlug.Some? && Taken(View(), newSlug.value, Some(id)) {
        return Err(SlugTaken);
      }
      if id !in posts {
        return Err(NotFound);
      }
      var entity := posts[id];
      var before := entity;
      if newSlug.Some? {
        entity := entity.(slug := newSlug.value);
      }
      if published.Some? {
        entity := entity.(isPublished := published.value);
      }
      SaveWithRedirect(id, entity, before, newRule);
      r := Ok(posts[id]);
    }

    method PublishPost(id: nat, nextState: bool) returns (r: Result<Post, Refusal>)
      modifies this`posts
      ensures View() == After(old(View()), Step.PublishPost(id, nextState))
      ensures if r.Ok? then id in posts && r.value == posts[id] else id !in posts && r.error == NotFound
    {
      if id !in posts {
        return Err(NotFound);
      }
      posts := posts[id := posts[id].(isPublished := nextState)];
      r := Ok(posts[id]);
    }

    method RemovePost(id: nat) returns (r: Result<Post, Refusal>)
      modifies this`posts
      ensures View() == After(old(View()), Step.RemovePost(id))
      ensures if r.Ok? then id in old(posts) && r.value == old(posts)[id] else id !in posts && r.error == NotFound
    {
      if id !in posts {
        return Err(NotFound);
      }
      r := Ok(posts[id]);
      posts := posts - {id};
    }

    method CreateRule(newRule: nat, from: Path, to: Path) returns (r: Result<Rule, Refusal>)
      requires Enabled(View(), AddRule(newRule, from, to))
      modifies this`rules
      ensures View() == After(old(View()), AddRule(newRule, from, to))
      ensures if r.Ok? then newRule in rules && r.value == rules[newRule]
              else Refused(old(View()), AddRule(newRule, from, to)) == Some(r.error)
    {
      if from == to {
        return Err(Invalid);
      }
      var refusal := AssertNoChain(rules, None, from, to);
      if refusal.Some? {
        return Err(refusal.value);
      }
      rules := rules[newRule := Rule(from, to)];
      r := Ok(rules[newRule]);
    }

    method UpdateRule(rule: nat, newFrom: Option<Path>, newTo: Option<Path>) returns (r: Result<Rule, Refusal>)
      modifies this`rules
      ensures View() == After(old(View()), EditRule(rule, newFrom, newTo))
      ensures if r.Ok? then rule in rules && r.value == rules[rule]
              else Refused(old(View()), EditRule(rule, newFrom, newTo)) == Some(r.error)
    {
      if rule !in rules {
        return Err(NotFound);
      }
      var from, to := Or(newFrom, rules[rule].fromPath), Or(newTo, rules[rule].toPath);
      if from == to {
        return Err(Invalid);
      }
      var refusal := AssertNoChain(rules, Some(rule), from, to);
      if refusal.Some? {
        return Err(refusal.value);
      }
      rules := rules[rule := Rule(from, to)];
      r := Ok(rules[rule]);
    }

    method DeleteRule(rule: nat) returns (r: Result<Rule, Refusal>)
      modifies this`rules
      ensures View() == After(old(View()), RemoveRule(rule))
      ensures if r.Ok? then rule in old(rules) && r.value == old(rules)[rule] else rule !in rules && r.error == NotFound
    {
      if rule !in rules {
        return Err(NotFound);
      }
      r := Ok(rules[rule]);
      rules := rules - {rule};
    }
  }
}
