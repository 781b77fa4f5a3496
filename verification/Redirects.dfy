/**
 The redirect table: what renaming, creating and publishing posts and editing rules by hand do
 to it. A path is followed for one hop only, so the table must never chain.
 */
module Redirects {
  import opened Wrappers

  type Path = string

  /** What the update schema lets through as a slug is never empty. */
  type Slug = s: string | s != "" witness "a"

  datatype Rule = Rule(fromPath: Path, toPath: Path)

  datatype Post = Post(slug: Slug, isPublished: bool)

  datatype Site = Site(rules: map<nat, Rule>, posts: map<nat, Post>)

  datatype Refusal = NotFound | SlugTaken | Invalid | SourceTaken | Chain

  function PathOf(slug: string): Path {
    "/news/" + slug
  }

  lemma PathsDiffer(a: string, b: string)
    ensures PathOf(a) == PathOf(b) <==> a == b
  {
    assert PathOf(a)[6..] == a && PathOf(b)[6..] == b;
  }

  // ---- the table ------------------------------------------------------------------------

  ghost predicate IsSource(rules: map<nat, Rule>, x: Path) {
    exists i :: i in rules && rules[i].fromPath == x
  }

  ghost predicate OneRuleEach(rules: map<nat, Rule>) {
    forall i, j | i in rules && j in rules && rules[i].fromPath == rules[j].fromPath :: i == j
  }

  /** Every rule lands in one hop: no target, its own included, is a source. */
  ghost predicate NoChain(rules: map<nat, Rule>) {
    OneRuleEach(rules) && forall i | i in rules :: !IsSource(rules, rules[i].toPath)
  }

  ghost predicate Leads(rules: map<nat, Rule>, x: Path, y: Path) {
    exists i :: i in rules && rules[i] == Rule(x, y)
  }

  /** Where a visitor to `x` ends up: the target of the rule for `x`, or `x` itself. */
  ghost function Resolve(rules: map<nat, Rule>, x: Path): Path {
    if IsSource(rules, x) then
      var i :| i in rules && rules[i].fromPath == x;
      rules[i].toPath
    else x
  }

  lemma ResolveLeads(rules: map<nat, Rule>, x: Path, y: Path)
    requires OneRuleEach(rules)
    ensures Leads(rules, x, y) <==> IsSource(rules, x) && Resolve(rules, x) == y
  {
  }

  // ---- the statements -------------------------------------------------------------------

  /** `UPDATE redirects SET to_path = to WHERE to_path = from`. */
  function Retarget(rules: map<nat, Rule>, from: Path, to: Path): map<nat, Rule> {
    map i | i in rules :: if rules[i].toPath == from then rules[i].(toPath := to) else rules[i]
  }

  /** `DELETE FROM redirects WHERE from_path = from`. */
  function DeleteFrom(rules: map<nat, Rule>, from: Path): map<nat, Rule> {
    map i | i in rules && rules[i].fromPath != from :: rules[i]
  }

  /** `DELETE FROM redirects WHERE from_path = path OR from_path = to_path`. */
  function ClearInto(rules: map<nat, Rule>, path: Path): map<nat, Rule> {
    map i | i in rules && rules[i].fromPath != path && rules[i].fromPath != rules[i].toPath :: rules[i]
  }

  /** The four statements of a published rename, in order; `id` is the new row's. */
  function Rename(rules: map<nat, Rule>, id: nat, from: Path, to: Path): map<nat, Rule> {
    ClearInto(DeleteFrom(Retarget(rules, from, to), from)[id := Rule(from, to)], to)
  }

  function Subst(x: Path, from: Path, to: Path): Path {
    if x == from then to else x
  }

  lemma RowsAfterRename(rules: map<nat, Rule>, id: nat, from: Path, to: Path)
    requires NoChain(rules) && id !in rules && from != to
    ensures var after := Rename(rules, id, from, to);
            && (forall i :: i in after <==>
                 i == id || (i in rules && rules[i].fromPath != from && rules[i].fromPath != to))
            && (forall i | i in after ::
                  after[i] == if i == id then Rule(from, to) else rules[i].(toPath := Subst(rules[i].toPath, from, to)))
  {
  }

  lemma SourcesAfterRename(rules: map<nat, Rule>, id: nat, from: Path, to: Path, x: Path)
    requires NoChain(rules) && id !in rules && from != to
    ensures IsSource(Rename(rules, id, from, to), x) <==> x == from || (x != to && IsSource(rules, x))
  {
    var after := Rename(rules, id, from, to);
    RowsAfterRename(rules, id, from, to);
    if x == from {
      assert id in after && after[id].fromPath == x;
    } else if x != to && IsSource(rules, x) {
      var i :| i in rules && rules[i].fromPath == x;
      assert i in after && after[i].fromPath == x;
    }
  }

  lemma RenameKeepsNoChain(rules: map<nat, Rule>, id: nat, from: Path, to: Path)
    requires NoChain(rules) && id !in rules && from != to
    ensures NoChain(Rename(rules, id, from, to)) && !IsSource(Rename(rules, id, from, to), to)
  {
    var after := Rename(rules, id, from, to);
    RowsAfterRename(rules, id, from, to);
    SourcesAfterRename(rules, id, from, to, to);
    forall i | i in after ensures !IsSource(after, after[i].toPath) {
      SourcesAfterRename(rules, id, from, to, after[i].toPath);
    }
  }

  /**
   Renaming a published row substitutes the new path for the old one in where every link ends up.
   For the old path itself this needs that no rule leads away from it, unless to the new path.
   */
  lemma RenameIsSubstitution(rules: map<nat, Rule>, id: nat, from: Path, to: Path)
    requires NoChain(rules) && id !in rules && from != to
    ensures Resolve(Rename(rules, id, from, to), to) == to
    ensures forall x | x != from && x != to ::
              Resolve(Rename(rules, id, from, to), x) == Subst(Resolve(rules, x), from, to)
    ensures (forall x | x != to :: Resolve(Rename(rules, id, from, to), x) == Subst(Resolve(rules, x), from, to)) <==>
            !IsSource(rules, from) || Leads(rules, from, to)
  {
    var after := Rename(rules, id, from, to);
    RenameKeepsNoChain(rules, id, from, to);
    RowsAfterRename(rules, id, from, to);
    assert after[id] == Rule(from, to);
    ResolveLeads(after, from, to);
    forall x | x != from && x != to ensures Resolve(after, x) == Subst(Resolve(rules, x), from, to) {
      ResolvedAfterRename(rules, id, from, to, x);
    }
    assert Resolve(after, from) == to;
    ResolveLeads(rules, from, to);
  }

  lemma ResolvedAfterRename(rules: map<nat, Rule>, id: nat, from: Path, to: Path, x: Path)
    requires NoChain(rules) && id !in rules && from != to && x != from && x != to
    ensures Resolve(Rename(rules, id, from, to), x) == Subst(Resolve(rules, x), from, to)
  {
    var after := Rename(rules, id, from, to);
    RenameKeepsNoChain(rules, id, from, to);
    SourcesAfterRename(rules, id, from, to, x);
    RowsAfterRename(rules, id, from, to);
    if i :| i in rules && rules[i].fromPath == x {
      assert after[i] == Rule(x, Subst(rules[i].toPath, from, to));
      ResolveLeads(after, x, after[i].toPath);
      ResolveLeads(rules, x, rules[i].toPath);
    }
  }

  lemma ClearKeepsNoChain(rules: map<nat, Rule>, path: Path)
    requires NoChain(rules)
    ensures NoChain(ClearInto(rules, path)) && !IsSource(ClearInto(rules, path), path)
    ensures forall x, y :: Leads(ClearInto(rules, path), x, y) <==> Leads(rules, x, y) && x != path
  {
    var after := ClearInto(rules, path);
    forall i | i in rules ensures rules[i].fromPath != rules[i].toPath {
      assert IsSource(rules, rules[i].fromPath);
    }
    forall i | i in after ensures !IsSource(after, after[i].toPath) {
      assert !IsSource(rules, rules[i].toPath);
    }
    forall x, y | Leads(rules, x, y) && x != path ensures Leads(after, x, y) {
      var i :| i in rules && rules[i] == Rule(x, y);
      assert i in after && after[i] == Rule(x, y);
    }
  }

  /** Of any table, one with loops included, clearing removes the loops and what leads away from the path. */
  lemma ClearRemovesLoops(rules: map<nat, Rule>, path: Path, x: Path, y: Path)
    ensures Leads(ClearInto(rules, path), x, y) <==> Leads(rules, x, y) && x != path && x != y
  {
    if Leads(rules, x, y) && x != path && x != y {
      var i :| i in rules && rules[i] == Rule(x, y);
      assert i in ClearInto(rules, path) && ClearInto(rules, path)[i] == Rule(x, y);
    }
  }

  // ---- rules edited by hand -------------------------------------------------------------

  /** The rows `assertNoChain` finds, the edited one left out. */
  function Clashing(rules: map<nat, Rule>, self: Option<nat>, from: Path, to: Path): set<nat> {
    set i | i in rules && Some(i) != self &&
      (rules[i].fromPath == to || rules[i].toPath == from || rules[i].fromPath == from)
  }

  function AssertNoChain(rules: map<nat, Rule>, self: Option<nat>, from: Path, to: Path): Option<Refusal> {
    var others := Clashing(rules, self, from, to);
    if exists i | i in others :: rules[i].fromPath == from then Some(SourceTaken)
    else if others != {} then Some(Chain)
    else None
  }

  /** Of rules with different ends, the guard lets through exactly those that leave the table without chains. */
  lemma GuardIsExact(rules: map<nat, Rule>, self: Option<nat>, id: nat, from: Path, to: Path)
    requires NoChain(rules) && (if self.Some? then self == Some(id) else id !in rules)
    ensures from != to && AssertNoChain(rules, self, from, to).None? <==> NoChain(rules[id := Rule(from, to)])
  {
    var after := rules[id := Rule(from, to)];
    assert after[id] == Rule(from, to);
    if from == to {
      assert IsSource(after, from);
    } else if Clashing(rules, self, from, to) == {} {
      forall i | i in after ensures !IsSource(after, after[i].toPath) {
        forall j | j in after ensures after[j].fromPath != after[i].toPath {
          assert i != id ==> i !in Clashing(rules, self, from, to) && !IsSource(rules, rules[i].toPath);
          assert j != id ==> j !in Clashing(rules, self, from, to);
        }
      }
      forall i | i in after && i != id ensures after[i].fromPath != from {
        assert i !in Clashing(rules, self, from, to);
      }
    } else {
      var i :| i in Clashing(rules, self, from, to);
      assert i != id && after[i] == rules[i];
      assert rules[i].fromPath == to ==> IsSource(after, to);
      assert rules[i].toPath == from ==> IsSource(after, from);
    }
  }

  /** The guard names the reason: the source is taken exactly if another rule has it. */
  lemma GuardNamesReason(rules: map<nat, Rule>, self: Option<nat>, from: Path, to: Path)
    ensures AssertNoChain(rules, self, from, to) == Some(SourceTaken) <==> IsSource(OtherRules(rules, self), from)
    ensures AssertNoChain(rules, self, from, to) == Some(Chain) <==>
            && !IsSource(OtherRules(rules, self), from)
            && (IsSource(OtherRules(rules, self), to) || exists x :: Leads(OtherRules(rules, self), x, from))
  {
    var others, clashing := OtherRules(rules, self), Clashing(rules, self, from, to);
    forall i ensures i in clashing <==>
                     i in others && (others[i].fromPath == to || others[i].toPath == from || others[i].fromPath == from)
    {
    }
    forall i | i in others ensures Leads(others, others[i].fromPath, others[i].toPath) {
      assert others[i] == Rule(others[i].fromPath, others[i].toPath);
    }
    if AssertNoChain(rules, self, from, to) == Some(Chain) {
      var i :| i in clashing;
      assert others[i].fromPath == to || Leads(others, others[i].fromPath, from);
    }
  }

  function OtherRules(rules: map<nat, Rule>, self: Option<nat>): map<nat, Rule> {
    map i | i in rules && Some(i) != self :: rules[i]
  }
}
