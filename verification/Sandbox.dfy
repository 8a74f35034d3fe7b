/** Sandbox inheritance in sys_fork and sys_exec, and what the path and capability checks then admit. */
module Sandbox {
  import opened Basics
  import opened Bits

  const PATH_MAX := 63

  /** One past the greatest 64-bit number, the width of a memory limit. */
  const DOUBLE_WRAP := WRAP * WRAP

  /** The sandbox fields of a task; a limit of 0 means unlimited, an empty root unrestricted. */
  datatype Box = Box(caps: Word, memLimit: nat, cpuQuota: Word, root: string)

  /** The root path argument of struct fork_sandbox_config, as copy_user_string finds it. */
  datatype RootArg = NoRoot | BadPointer | Root(path: string)

  datatype Config = Config(capsAllow: Word, memLimit: nat, cpuQuota: Word, root: RootArg)

  datatype Result = Child(box: Box) | InvalidArgument | NotPermitted | TooBig

  // ------------------------------------------------------------------ the checks

  /** path_is_within, and is_path_allowed for a non-empty root: at or below it. */
  predicate Within(child: string, parent: string) {
    |parent| <= |child| && child[..|parent|] == parent && (|child| == |parent| || child[|parent|] == '/')
  }

  /** vfs_lookup's root check. */
  predicate Admits(root: string, path: string) {
    path != "" && (root == "" || root == "/" || (path[0] == '/' && Within(path, root)))
  }

  /** The system call dispatcher's capability check. */
  predicate Permits(caps: Word, need: Word) {
    need == 0 || And(caps, need) == need
  }

  // ------------------------------------------------------------------ inheritance

  /** A requested limit cut to the parent's; no request means the parent's. */
  function Limited(request: nat, parent: nat): nat {
    if request == 0 then parent else if parent > 0 && request > parent then parent else request
  }

  /** The page limit that sys_fork enforces. */
  function PageLimit(memLimit: nat): nat { memLimit / PAGE_SIZE % WRAP }

  /** The sandbox part of sys_fork, for a parent with the given number of pages. */
  function Fork(parent: Box, sb: Option<Config>, pages: nat): Result {
    if sb.None? then CheckPages(parent, pages)
    else
      var c := sb.value;
      var caps := if c.capsAllow != 0 then And(parent.caps, c.capsAllow) else parent.caps;
      var mem := Limited(c.memLimit, parent.memLimit);
      var cpu := Limited(if c.cpuQuota > 100 then 100 else c.cpuQuota, parent.cpuQuota);
      match c.root
      case NoRoot => CheckPages(Box(caps, mem, cpu, parent.root), pages)
      case BadPointer => InvalidArgument
      case Root(path) =>
        var sub := if |path| > PATH_MAX then path[..PATH_MAX] else path;
        if parent.root != "" && !Within(sub, parent.root) then NotPermitted
        else CheckPages(Box(caps, mem, cpu, sub), pages)
  }

  function CheckPages(box: Box, pages: nat): Result {
    if PageLimit(box.memLimit) > 0 && pages > PageLimit(box.memLimit) then TooBig else Child(box)
  }

  /** One step of a lineage. Exec keeps the sandbox fields. */
  datatype Step = ForkStep(sb: Option<Config>, pages: nat) | ExecStep

  function After(b: Box, step: Step): Option<Box> {
    match step
    case ExecStep => Some(b)
    case ForkStep(sb, pages) => match Fork(b, sb, pages) { case Child(c) => Some(c) case _ => None }
  }

  /** The descendant at the end of a lineage, if every step succeeds. */
  function Descendant(b: Box, steps: seq<Step>): Option<Box>
    decreases |steps|
  {
    if steps == [] then Some(b)
    else match After(b, steps[0]) case None => None case Some(c) => Descendant(c, steps[1..])
  }

  // ------------------------------------------------------------------ no looser

  predicate HasBit(w: nat, k: nat) { w / Pow2(k) % 2 == 1 }

  predicate Tighter(child: nat, parent: nat) {
    parent == 0 || (child != 0 && child <= parent)
  }

  /** The child may do no more than the parent. */
  ghost predicate NoLooser(c: Box, p: Box) {
    && (forall k: nat :: HasBit(c.caps, k) ==> HasBit(p.caps, k))
    && (forall need: Word :: Permits(c.caps, need) ==> Permits(p.caps, need))
    && Tighter(c.memLimit, p.memLimit) && Tighter(c.cpuQuota, p.cpuQuota)
    && (forall path: string :: Admits(c.root, path) ==> Admits(p.root, path))
  }

  lemma {:induction false} HalfBit(w: nat, k: nat)
    requires k >= 1
    ensures HasBit(w, k) <==> HasBit(w / 2, k - 1)
  {
    var p := Pow2(k - 1);
    DivTwice(w, p);
  }

  lemma {:induction false} DivTwice(w: nat, p: nat)
    requires p >= 1
    ensures w / (2 * p) == w / 2 / p
  {
    var q, r := w / 2 / p, w / 2 % p;
    assert w / 2 == p * q + r;
    assert w == 2 * p * q + (2 * r + w % 2);
    assert 0 <= 2 * r + w % 2 < 2 * p;
    Quotient(w, 2 * p, q, 2 * r + w % 2);
  }

  lemma {:induction false} Quotient(w: nat, d: nat, q: nat, r: nat)
    requires d >= 1 && w == d * q + r && r < d
    ensures w / d == q
  {
    var q' := w / d;
    assert w == d * q' + w % d;
    MulStep(d, q', q);
    MulStep(d, q, q');
  }

  lemma {:induction false} MulStep(d: nat, a: nat, b: nat)
    ensures a < b ==> d * b >= d * a + d
  {
    if a < b {
      MulStep(d, a, b - 1);
      assert d * b == d * (b - 1) + d;
    }
  }

  /** & is intersection. */
  lemma {:induction false} AndBit(a: nat, b: nat, k: nat)
    ensures HasBit(And(a, b), k) <==> HasBit(a, k) && HasBit(b, k)
    decreases k
  {
    if a == 0 || b == 0 {
      ZeroBit(k);
    } else if k == 0 {
      assert And(a, b) % 2 == (if a % 2 == 1 && b % 2 == 1 then 1 else 0);
    } else {
      HalfBit(a, k);
      HalfBit(b, k);
      HalfBit(And(a, b), k);
      assert And(a, b) / 2 == And(a / 2, b / 2);
      AndBit(a / 2, b / 2, k - 1);
    }
  }

  lemma {:induction false} ZeroBit(k: nat)
    ensures !HasBit(0, k)
  {
  }

  /** A need met by part of the capabilities is met by all of them. */
  lemma {:induction false} NeedMet(caps: nat, allow: nat, need: nat)
    requires And(And(caps, allow), need) == need
    ensures And(caps, need) == need
    decreases caps
  {
    if need > 0 {
      assert caps > 0 && allow > 0 && And(caps, allow) > 0;
      var x := And(caps, allow);
      assert x % 2 == (if caps % 2 == 1 && allow % 2 == 1 then 1 else 0) && x / 2 == And(caps / 2, allow / 2);
      assert And(x, need) == (if x % 2 == 1 && need % 2 == 1 then 1 else 0) + 2 * And(x / 2, need / 2);
      assert And(x / 2, need / 2) == need / 2;
      NeedMet(caps / 2, allow / 2, need / 2);
    }
  }

  /** Going below a root only shuts paths out. */
  lemma {:induction false} WithinAdmits(sub: string, root: string, path: string)
    requires Within(sub, root) && root != "" && Admits(sub, path)
    ensures Admits(root, path)
  {
    if root != "/" {
      assert sub != "" && (sub == "/" ==> root == "/");
      assert path[..|sub|] == sub;
      assert path[..|root|] == sub[..|root|] == root;
      if |path| > |root| {
        if |sub| > |root| { assert path[|root|] == sub[|root|]; }
      }
    }
  }

  lemma {:induction false} SameNoLooser(b: Box)
    ensures NoLooser(b, b)
  {
  }

  /** Whatever the configuration, a forked child may do no more than its parent. */
  lemma {:induction false} ForkNoLooser(parent: Box, sb: Option<Config>, pages: nat)
    requires Fork(parent, sb, pages).Child?
    ensures NoLooser(Fork(parent, sb, pages).box, parent)
  {
    hide HasBit, Admits, Within, And;
    var c := Fork(parent, sb, pages).box;
    forall k: nat ensures HasBit(c.caps, k) ==> HasBit(parent.caps, k) {
      if sb.Some? { AndBit(parent.caps, sb.value.capsAllow, k); }
    }
    forall need: Word ensures Permits(c.caps, need) ==> Permits(parent.caps, need) {
      if sb.Some? && Permits(c.caps, need) && c.caps != parent.caps && need != 0 { NeedMet(parent.caps, sb.value.capsAllow, need); }
    }
    forall path: string ensures Admits(c.root, path) ==> Admits(parent.root, path) {
      if Admits(c.root, path) {
        AdmitsAll(path, c.root);
        if parent.root != "" && c.root != parent.root { WithinAdmits(c.root, parent.root, path); }
      }
    }
  }

  lemma {:induction false} AdmitsAll(path: string, root: string)
    requires Admits(root, path)
    ensures Admits("", path)
  {
  }

  /** Along every lineage of forks and execs, a descendant may do no more than each ancestor. */
  lemma {:induction false} LineageNoLooser(b: Box, steps: seq<Step>)
    requires Descendant(b, steps).Some?
    ensures NoLooser(Descendant(b, steps).value, b)
    decreases |steps|
  {
    hide NoLooser, Fork;
    if steps == [] {
      SameNoLooser(b);
    } else {
      var c := After(b, steps[0]).value;
      LineageNoLooser(c, steps[1..]);
      if steps[0].ForkStep? { ForkNoLooser(b, steps[0].sb, steps[0].pages); } else { SameNoLooser(b); }
      NoLooserTrans(Descendant(b, steps).value, c, b);
    }
  }

  lemma {:induction false} NoLooserTrans(a: Box, b: Box, c: Box)
    requires NoLooser(a, b) && NoLooser(b, c)
    ensures NoLooser(a, c)
  {
    hide HasBit, Permits, Admits;
  }

  // ------------------------------------------------------------------ exactly what a child gets

  /** The least of two limits, of which 0 is none. */
  predicate IsLeastLimit(l: nat, a: nat, b: nat) {
    (l == 0 <==> a == 0 && b == 0) && (l == a || l == b) && (a != 0 ==> l <= a) && (b != 0 ==> l <= b)
  }

  /** The root the child asks for: what copy_user_string leaves of the argument, or the parent's. */
  ghost predicate IsRoot(root: string, arg: RootArg, parent: string) {
    if arg.Root? then root <= arg.path && |root| == (if |arg.path| < 63 then |arg.path| else 63)
    else root == parent
  }

  /**
   A child's capabilities are the parent's that the configuration allows, all of them if it names none; each
   limit is the least that is set, with a quota cut to 100; the root is the one asked for or the parent's.
   Without a configuration the child has what its parent has.
   */
  lemma {:induction false} ForkGives(parent: Box, sb: Option<Config>, pages: nat, k: nat)
    requires Fork(parent, sb, pages).Child?
    ensures var c := Fork(parent, sb, pages).box;
            if sb.None? then c == parent
            else
              var req := sb.value;
              && (HasBit(c.caps, k) <==> HasBit(parent.caps, k) && (req.capsAllow == 0 || HasBit(req.capsAllow, k)))
              && IsLeastLimit(c.memLimit, req.memLimit, parent.memLimit)
              && IsLeastLimit(c.cpuQuota, if req.cpuQuota < 100 then req.cpuQuota else 100, parent.cpuQuota)
              && IsRoot(c.root, req.root, parent.root)
  {
    hide HasBit, Within, And, PageLimit;
    if sb.Some? { AndBit(parent.caps, sb.value.capsAllow, k); }
  }

  /** A path is within a root if it is the root or goes on below it with a slash. */
  lemma {:induction false} WithinIff(child: string, parent: string)
    ensures Within(child, parent) <==> child == parent || exists rest: string :: child == parent + "/" + rest
  {
    if Within(child, parent) && |child| > |parent| {
      var rest := child[|parent| + 1..];
      assert child == parent + "/" + rest;
    }
    if rest: string :| child == parent + "/" + rest {
      assert child[..|parent|] == parent && child[|parent|] == '/';
    }
  }

  /** A lookup is admitted if the path is not empty and the root is none, is "/", or has it at or below it. */
  lemma {:induction false} AdmitsIff(root: string, path: string)
    ensures Admits(root, path) <==>
            && path != ""
            && (root == "" || root == "/" ||
                (path[0] == '/' && (path == root || exists rest: string :: path == root + "/" + rest)))
  {
    WithinIff(path, root);
  }

  /** The dispatcher admits a system call exactly if every capability it needs is held. */
  lemma {:induction false} PermitsIff(caps: Word, need: Word)
    ensures Permits(caps, need) <==> forall k: nat :: HasBit(need, k) ==> HasBit(caps, k)
  {
    hide HasBit, And;
    if Permits(caps, need) {
      forall k: nat ensures HasBit(need, k) ==> HasBit(caps, k) { ZeroBit(k); AndBit(caps, need, k); }
    }
    if forall k: nat :: HasBit(need, k) ==> HasBit(caps, k) {
      forall k: nat ensures HasBit(And(caps, need), k) <==> HasBit(need, k) { AndBit(caps, need, k); }
      SameBits(And(caps, need), need);
    }
  }

  /** A number is its bits. */
  lemma {:induction false} SameBits(a: nat, b: nat)
    requires forall k: nat :: HasBit(a, k) <==> HasBit(b, k)
    ensures a == b
    decreases a + b
  {
    if a + b > 0 {
      assert HasBit(a, 0) <==> HasBit(b, 0);
      assert Pow2(0) == 1;
      forall k: nat ensures HasBit(a / 2, k) <==> HasBit(b / 2, k) {
        HalfBit(a, k + 1);
        HalfBit(b, k + 1);
      }
      SameBits(a / 2, b / 2);
    }
  }

  /** What sys_fork makes of the root argument, and whether it may. */
  ghost predicate RootPermitted(arg: RootArg, parent: string) {
    arg.Root? ==> parent == "" || exists root: string :: IsRoot(root, arg, parent) && Within(root, parent)
  }

  /** The 32-bit count of whole pages in a limit checks the child's pages, unless it is 0. */
  predicate PagesAllowed(memLimit: nat, pages: nat) {
    var limit := memLimit / 4096 % 0x1_0000_0000; limit == 0 || pages <= limit
  }

  /** sys_fork's result: which error, in the order of the checks, or a child. */
  lemma {:induction false} ForkResult(parent: Box, sb: Option<Config>, pages: nat)
    ensures var r, arg := Fork(parent, sb, pages), if sb.Some? then sb.value.root else NoRoot;
            && (r == InvalidArgument <==> arg == BadPointer)
            && (r == NotPermitted <==> arg != BadPointer && !RootPermitted(arg, parent.root))
            && (r.Child? || r == TooBig ==>
                  forall least: nat :: IsLeastLimit(least, if sb.Some? then sb.value.memLimit else 0, parent.memLimit) ==>
                    (r.Child? <==> PagesAllowed(least, pages)))
  {
    hide Within, And;
    if sb.Some? && sb.value.root.Root? { RootUnique(sb.value.root.path, parent.root); }
    var mem := if sb.Some? then Limited(sb.value.memLimit, parent.memLimit) else parent.memLimit;
    assert PageLimit(mem) == mem / 4096 % 0x1_0000_0000;
  }

  lemma {:induction false} RootUnique(path: string, parent: string)
    ensures var sub := if |path| > PATH_MAX then path[..PATH_MAX] else path;
            RootPermitted(Root(path), parent) <==> parent == "" || Within(sub, parent)
  {
    hide Within;
    var sub := if |path| > PATH_MAX then path[..PATH_MAX] else path;
    assert IsRoot(sub, Root(path), parent);
    forall root: string | IsRoot(root, Root(path), parent) ensures root == sub { assert root == path[..|root|]; }
  }

  /** Execs, and forks without a configuration, change nothing. */
  lemma {:induction false} PlainLineage(b: Box, steps: seq<Step>)
    requires forall step <- steps :: step.ExecStep? || (step.sb.None? && PagesAllowed(b.memLimit, step.pages))
    ensures Descendant(b, steps) == Some(b)
    decreases |steps|
  {
    if steps != [] {
      assert steps[0] in steps && forall step <- steps[1..] :: step in steps;
      PlainLineage(b, steps[1..]);
    }
  }

  // ------------------------------------------------------------------ the limit that is enforced

  /**
   The page limit sys_fork checks is the byte limit in whole pages, cut to 32 bits; a limit that comes out as
   zero checks nothing. When the enforced limit of a child is no looser than its parent's, for every 64-bit
   limit of the parent:
   - a parent below one page: always, for nothing is enforced on it;
   - below 2^44 bytes: if and only if the configuration asks for no limit or for at least one page;
   - from 2^44 bytes on, where whole pages no longer fit 32 bits: if and only if nothing is enforced on the
     parent, or the configuration asks for no limit or for no less than the parent's, or the 32-bit page
     count of what it asks for is positive and no greater than the parent's.
   */
  lemma {:induction false} PageLimitTighter(request: nat, parent: nat)
    requires request < DOUBLE_WRAP && parent < DOUBLE_WRAP
    ensures Tighter(PageLimit(Limited(request, parent)), PageLimit(parent)) <==>
            if parent < PAGE_SIZE then true
            else if parent < WRAP * PAGE_SIZE then request == 0 || request >= PAGE_SIZE
            else
              || parent % (WRAP * PAGE_SIZE) < PAGE_SIZE || request == 0 || request >= parent
              || 1 <= request % (WRAP * PAGE_SIZE) / PAGE_SIZE <= parent % (WRAP * PAGE_SIZE) / PAGE_SIZE
  {
    var m := Limited(request, parent);
    PageLimitIs(parent);
    PageLimitIs(m);
    hide PageLimit;
    assert 0 < parent < WRAP * PAGE_SIZE ==> m < WRAP * PAGE_SIZE;
  }

  /** The enforced limit is the byte limit below 2^44, in whole pages. */
  lemma {:induction false} PageLimitIs(m: nat)
    ensures PageLimit(m) == m % (WRAP * PAGE_SIZE) / PAGE_SIZE
  {
    var q, r := m / (WRAP * PAGE_SIZE), m % (WRAP * PAGE_SIZE);
    assert m == q * WRAP * PAGE_SIZE + r;
    assert m / PAGE_SIZE == q * WRAP + r / PAGE_SIZE;
    ModWrap(q, r / PAGE_SIZE);
  }

  lemma {:induction false} ModWrap(q: nat, r: nat)
    requires r < WRAP
    ensures (q * WRAP + r) % WRAP == r
  {
  }

  /** A child of a two-page parent that asks for 100 bytes is not checked at all. */
  lemma {:induction false} SubPageLimitIsNone(pages: nat)
    ensures Fork(Box(0, 8192, 0, ""), Some(Config(0, 100, 0, NoRoot)), pages) == Child(Box(0, 100, 0, ""))
  {
    assert PageLimit(100) == 0;
  }

  /** A child that asks for two pages of a parent whose limit is 2^44 + 4096 bytes may have two; its parent, one. */
  lemma {:induction false} WideLimitIsCut()
    ensures var parent := WRAP * PAGE_SIZE + PAGE_SIZE;
            && Fork(Box(0, parent, 0, ""), Some(Config(0, 8192, 0, NoRoot)), 2) == Child(Box(0, 8192, 0, ""))
            && Fork(Box(0, parent, 0, ""), None, 2) == TooBig
            && !Tighter(PageLimit(8192), PageLimit(parent))
  {
    assert PageLimit(8192) == 2 && PageLimit(WRAP * PAGE_SIZE + PAGE_SIZE) == 1;
  }
}
