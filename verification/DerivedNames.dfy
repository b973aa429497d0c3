/**
 What derived groups are called, and a publication that needs one. A derived group bears its child's
 name with the parent's in brackets; names without brackets keep all groups of a snapshot apart.
 */
module DerivedNames {
  import opened Wrappers
  import opened Policy
  import opened Sorting
  import opened Pipeline
  import opened PipelineMeaning
  import opened DerivedGroups
  import opened ResolveGroups
  import opened RewriteMeaning
  import opened GroupSnapshot
  import opened Admission
  import opened Resolve
  import opened Publication
  import FilterChoice
  import Prune
  import PruneSafety
  import Rules
  import Topology

  // ---- Names ----

  /** The derived name extends the child's, and tells the parents of one child apart. */
  lemma NameTellsParent(p: string, p': string, c: string)
    ensures c < DerivedName(p, c)
    ensures DerivedName(p, c) == DerivedName(p', c) <==> p == p'
  {
    var s, s' := DerivedName(p, c), DerivedName(p', c);
    assert s[|c| + 2..|s| - 1] == p && s'[|c| + 2..|s'| - 1] == p';
  }

  /** Where the first bracket stands. */
  lemma BracketAt(p: string, c: string)
    requires '[' !in c
    ensures var s := DerivedName(p, c);
            |s| > |c| + 1 && s[|c| + 1] == '[' && s[..|c|] == c && forall i :: 0 <= i <= |c| ==> s[i] != '['
  {
  }

  /** Children without brackets in their names: the derived name tells parent and child. */
  lemma NameTellsBoth(p: string, c: string, p': string, c': string)
    requires '[' !in c && '[' !in c'
    ensures DerivedName(p, c) == DerivedName(p', c') <==> p == p' && c == c'
  {
    if DerivedName(p, c) == DerivedName(p', c') {
      BracketAt(p, c);
      BracketAt(p', c');
      assert |c| == |c'|;
      NameTellsParent(p, p', c);
    }
  }

  lemma NameIsBracketed(p: string, c: string)
    ensures '[' in DerivedName(p, c)
  {
    assert DerivedName(p, c)[|c| + 1] == '[';
  }

  /** With brackets in names two references with different parents and children may share a derived name. */
  lemma BracketsClash(x: string, y: string, z: string)
    ensures DerivedName(z, x + " [" + y + "]") == DerivedName(y + "] [" + z, x)
  {
  }

  // ---- Policies with plain names are tidy ----

  /** Neither end is white space. */
  ghost predicate Snug(white: char -> bool, s: string) {
    s != "" && !white(s[0]) && !white(s[|s| - 1])
  }

  ghost predicate Trims(trim: Prune.Trim, white: char -> bool) {
    !white(']') && forall s :: Snug(white, s) ==> trim(s) == s
  }

  /** Groups have snug ids and names, names without brackets, all different; derived ids are snug. */
  ghost predicate PlainTitles(white: char -> bool, env: Environment, gs: seq<NodeGroup>) {
    && (forall g :: g in gs ==> Snug(white, g.id) && Snug(white, g.name) && '[' !in g.name)
    && (forall g, h :: g in gs && h in gs && (g.id == h.id || g.name == h.name) ==> g == h)
    && (forall p, c :: Snug(white, env.derivedId(p, c)))
  }

  /** No node or builtin is labelled like a group, a derived id or with a bracket. */
  ghost predicate PlainLeaves(trim: Prune.Trim, env: Environment, input: Input, gs: seq<NodeGroup>) {
    && (forall k, g :: IsLeaf(env, input, gs, k) && g in gs ==> trim(k.id) != g.id && trim(k.name) != g.name)
    && (forall k, p, c :: IsLeaf(env, input, gs, k) ==> trim(k.id) != env.derivedId(p, c))
    && (forall k :: IsLeaf(env, input, gs, k) ==> '[' !in trim(k.name))
  }

  lemma PlainTitle(trim: Prune.Trim, white: char -> bool, env: Environment, gs: seq<NodeGroup>, l: Label)
    requires Trims(trim, white) && PlainTitles(white, env, gs) && IsTitle(env, gs, l)
    ensures Trimmed(trim, l)
  {
    if GroupLabel(gs, l) {
      var g :| g in gs && l == Label(g.id, g.name);
    } else {
      var p, c :| p in gs && c in gs && HasAddRef(p.sources, c.id) && l == RefLabel(env, p, c);
      assert l.name[0] == c.name[0] && l.name[|l.name| - 1] == ']';
      assert Snug(white, l.name);
    }
  }

  lemma PlainApart(white: char -> bool, env: Environment, gs: seq<NodeGroup>, l: Label, k: Label)
    requires PlainTitles(white, env, gs) && NamingOk(env, gs)
    requires IsTitle(env, gs, l) && IsTitle(env, gs, k) && (l.id == k.id || l.name == k.name)
    ensures l == k
  {
    if GroupLabel(gs, l) && GroupLabel(gs, k) {
      var g :| g in gs && l == Label(g.id, g.name);
      var h :| h in gs && k == Label(h.id, h.name);
    } else if GroupLabel(gs, l) {
      GroupNotDerived(white, env, gs, l, k);
    } else if GroupLabel(gs, k) {
      GroupNotDerived(white, env, gs, k, l);
    } else {
      var p, c :| p in gs && c in gs && HasAddRef(p.sources, c.id) && l == RefLabel(env, p, c);
      var p', c' :| p' in gs && c' in gs && HasAddRef(p'.sources, c'.id) && k == RefLabel(env, p', c');
      NameTellsBoth(p.name, c.name, p'.name, c'.name);
    }
  }

  lemma GroupNotDerived(white: char -> bool, env: Environment, gs: seq<NodeGroup>, l: Label, k: Label)
    requires PlainTitles(white, env, gs) && NamingOk(env, gs) && GroupLabel(gs, l) && DerivedLabel(env, gs, k)
    ensures l.id != k.id && l.name != k.name
  {
    var g :| g in gs && l == Label(g.id, g.name);
    var p, c :| p in gs && c in gs && HasAddRef(p.sources, c.id) && k == RefLabel(env, p, c);
    NameIsBracketed(p.name, c.name);
    assert g.id in Topology.GroupIds(gs);
  }

  /** What a caller can check before resolving: plain titles and plain leaves make a policy tidy. */
  lemma PlainIsTidy(trim: Prune.Trim, white: char -> bool, env: Environment, input: Input, gs: seq<NodeGroup>)
    requires Trims(trim, white) && PlainTitles(white, env, gs) && NamingOk(env, gs) && PlainLeaves(trim, env, input, gs)
    requires gs == [] ==> input.policyRules == []
    ensures Tidy(trim, env, input, gs)
  {
    forall l | IsTitle(env, gs, l) ensures Trimmed(trim, l) { PlainTitle(trim, white, env, gs, l); }
    forall l, k | IsTitle(env, gs, l) && IsTitle(env, gs, k) && (l.id == k.id || l.name == k.name) ensures l == k {
      PlainApart(white, env, gs, l, k);
    }
    forall l, k | IsTitle(env, gs, l) && IsLeaf(env, input, gs, k) ensures trim(k.id) != l.id && trim(k.name) != l.name {
      LeafIsNoTitle(trim, env, input, gs, l, k);
    }
  }

  lemma LeafIsNoTitle(trim: Prune.Trim, env: Environment, input: Input, gs: seq<NodeGroup>, l: Label, k: Label)
    requires PlainLeaves(trim, env, input, gs) && IsTitle(env, gs, l) && IsLeaf(env, input, gs, k)
    ensures trim(k.id) != l.id && trim(k.name) != l.name
  {
    if GroupLabel(gs, l) {
      var g :| g in gs && l == Label(g.id, g.name);
    } else {
      var p, c :| p in gs && c in gs && HasAddRef(p.sources, c.id) && l == RefLabel(env, p, c);
      NameIsBracketed(p.name, c.name);
    }
  }
}
