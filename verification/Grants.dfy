/** Folder grants (`agent-grants/src/lib.rs`): which file operations a member has granted, on top of the
    deny list. */
module Grants {
  import opened Wrappers
  import opened Guard

  const FULL_ACCESS_MAX_TTL_SECS: nat := 24 * 60 * 60

  const U64_MAX: nat := TWO_64 - 1

  datatype Access = Read | Write

  datatype Scope = Subtree | Shallow

  datatype GrantKind = Folder | FullAccess

  datatype Grant = Grant(
    id: nat, kind: GrantKind, root: Location, access: Access, scope: Scope, grantedAt: nat, expiresAt: Option<nat>,
    grantedBy: string, reason: string, revokedAt: Option<nat>)
  {
    /** Live at `now`: the window is from `grantedAt` up to, not including, `expiresAt`. */
    predicate IsActive(now: nat) {
      revokedAt.None? && grantedAt <= now && (expiresAt.Some? ==> now < expiresAt.value)
    }

    predicate Covers(p: Location) {
      match scope
      case Subtree => root <= p
      case Shallow => p == root || (p != [] && Parent(p) == root)
    }
  }

  datatype Request = Request(
    kind: GrantKind, root: seq<Comp>, access: Access, scope: Scope, ttlSecs: Option<nat>, grantedBy: string, reason: string)

  datatype GrantError =
    | RootDenied | RootNotADirectory | RootUnresolvable | WriteOnFilesystemRoot | FullAccessIsReadOnly | BadTtl
    | MissingGrantedBy | MissingReason | UnknownGrant | AlreadyRevoked | IdsExhausted

  datatype DenialReason = DenyList | NoGrant | Inconsistent

  /** The file tree as it is during one call: what a location holds, whether it is a directory, how the disk
      spells it, and the deny list. `blank` says that a text is empty but for spaces. */
  datatype Disk = Disk(
    look: Location -> Entry, isDir: Location -> bool, spell: Location -> Option<Location>, table: Table,
    blank: string -> bool)

  // ----- Resolving -------------------------------------------------------------------------------------------

  /** The deny list's answer, with these project roots. */
  function Checked(d: Disk, roots: seq<Location>, path: seq<Comp>): (r: Option<Location>)
    ensures r.Some? <==> Allowed(d.look, d.table, RootsOf(d.look, RootPaths(roots)), path)
  {
    CheckIsExact(d.look, d.table, RootsOf(d.look, RootPaths(roots)), path);
    match CheckOf(d.look, d.table, RootsOf(d.look, RootPaths(roots)), path)
    case Err(_) => None
    case Ok(p) => Some(p)
  }

  function RootPaths(roots: seq<Location>): (ps: seq<seq<Comp>>) {
    seq(|roots|, i requires 0 <= i < |roots| => Names(roots[i]))
  }

  /** The spelling on disk: that of the deepest existing ancestor, then what does not exist yet. */
  function Spelling(d: Disk, p: Location): (r: Option<Location>)
    decreases |p|
  {
    match d.look(p)
    case Absent =>
      if p == [] then Some(p) else
        (match Spelling(d, Parent(p)) case None => None case Some(q) => Some(q + [p[|p| - 1]]))
    case Unreadable => None
    case _ => d.spell(p)
  }

  method OnDiskSpelling(d: Disk, path: Location) returns (r: Option<Location>)
    ensures r == Spelling(d, path)
  {
    var existing := path;
    var tail: seq<string> := [];
    AppendedNothing(Spelling(d, path));
    assert Reversed(tail) == [] && existing + [] == path;
    while true
      invariant existing <= path && existing + Reversed(tail) == path
      invariant Spelling(d, path) == Appended(Spelling(d, existing), Reversed(tail))
      decreases |existing|
    {
      match d.look(existing) {
      case Absent =>
        if existing == [] {
          return Some(path);
        }
        var name := existing[|existing| - 1];
        assert Reversed(tail + [name]) == [name] + Reversed(tail);
        AppendedMore(Spelling(d, Parent(existing)), name, Reversed(tail));
        tail := tail + [name];
        existing := Parent(existing);
      case Unreadable => return None;
      case _ =>
        var out := d.spell(existing);
        if out.None? {
          return None;
        }
        return Some(out.value + Reversed(tail));
      }
    }
  }

  /** Nothing of the location exists from its `n`-th component on. */
  predicate AbsentBelow(d: Disk, p: Location, n: nat) {
    n <= |p| && forall i :: n < i <= |p| ==> d.look(p[..i]).Absent?
  }

  /** What exists is spelled as the disk spells it, what does not as it was given. */
  lemma {:induction false} SpellingIs(d: Disk, p: Location, n: nat)
    requires AbsentBelow(d, p, n) && !d.look(p[..n]).Absent?
    ensures Spelling(d, p) ==
              if d.look(p[..n]).Unreadable? || d.spell(p[..n]).None? then None else Some(d.spell(p[..n]).value + p[n..])
    decreases |p|
  {
    if n < |p| {
      assert p[..|p|] == p;
      assert Parent(p)[..n] == p[..n];
      forall i | n < i <= |Parent(p)| ensures d.look(Parent(p)[..i]).Absent? {
        assert Parent(p)[..i] == p[..i];
      }
      SpellingIs(d, Parent(p), n);
      if d.look(p[..n]).Unreadable? || d.spell(p[..n]).None? {
        assert Spelling(d, p) == None;
      } else {
        var q := d.spell(p[..n]).value;
        assert q + p[n..] == q + Parent(p)[n..] + [p[|p| - 1]];
      }
    } else {
      assert p[..n] == p && p[n..] == [];
      assert forall q: Location :: q + p[n..] == q;
    }
  }

  /** Where not even the root exists, a location is spelled as given. */
  lemma {:induction false} SpellingOfNothing(d: Disk, p: Location)
    requires forall i :: 0 <= i <= |p| ==> d.look(p[..i]).Absent?
    ensures Spelling(d, p) == Some(p)
    decreases |p|
  {
    assert p[..|p|] == p;
    if p != [] {
      forall i | 0 <= i <= |Parent(p)| ensures d.look(Parent(p)[..i]).Absent? {
        assert Parent(p)[..i] == p[..i];
      }
      SpellingOfNothing(d, Parent(p));
      assert Parent(p) + [p[|p| - 1]] == p;
    }
  }

  function Reversed(s: seq<string>): (r: seq<string>) {
    seq(|s|, i requires 0 <= i < |s| => s[|s| - 1 - i])
  }

  function Appended(r: Option<Location>, tail: seq<string>): (q: Option<Location>) {
    match r case None => None case Some(p) => Some(p + tail)
  }

  lemma AppendedNothing(r: Option<Location>)
    ensures Appended(r, []) == r
  {
    if r.Some? {
      assert r.value + [] == r.value;
    }
  }

  lemma AppendedMore(r: Option<Location>, name: string, tail: seq<string>)
    ensures Appended(Appended(r, [name]), tail) == Appended(r, [name] + tail)
  {
    if r.Some? {
      assert r.value + [name] + tail == r.value + ([name] + tail);
    }
  }

  /** The deny list, the spelling on disk, and the deny list again on exactly that spelling. */
  function ResolveChecked(d: Disk, roots: seq<Location>, path: seq<Comp>): (r: Result<Location, DenialReason>) {
    match Checked(d, roots, path)
    case None => Err(DenyList)
    case Some(resolved) =>
      match Spelling(d, resolved)
      case None => Err(Inconsistent)
      case Some(spelled) =>
        match Checked(d, roots, Names(spelled))
        case None => Err(DenyList)
        case Some(canonical) => if canonical != spelled then Err(Inconsistent) else Ok(canonical)
  }

  method ResolvePath(d: Disk, roots: seq<Location>, path: seq<Comp>) returns (r: Result<Location, DenialReason>)
    ensures r == ResolveChecked(d, roots, path)
  {
    var resolved := CheckPath(d.look, d.table, RootPaths(roots), path);
    if resolved.Err? {
      return Err(DenyList);
    }
    var spelled := OnDiskSpelling(d, resolved.value);
    if spelled.None? {
      return Err(Inconsistent);
    }
    var canonical := CheckPath(d.look, d.table, RootPaths(roots), Names(spelled.value));
    if canonical.Err? {
      return Err(DenyList);
    }
    if canonical.value != spelled.value {
      return Err(Inconsistent);
    }
    return Ok(canonical.value);
  }

  /** What it gives passes the deny list, and is given back when asked for again. */
  lemma ResolvedPasses(d: Disk, roots: seq<Location>, path: seq<Comp>)
    requires ResolveChecked(d, roots, path).Ok?
    ensures var p := ResolveChecked(d, roots, path).value;
            && Checked(d, roots, Names(p)) == Some(p)
            && forall i :: 0 <= i <= |p| ==> Passes(d.table, RootsOf(d.look, RootPaths(roots)), p[..i])
  {
    var p := ResolveChecked(d, roots, path).value;
    var known := RootsOf(d.look, RootPaths(roots));
    CheckIsExact(d.look, d.table, known, Names(p));
    AllowedPathIsSafe(d.look, d.table, known, Names(p));
  }

  /** Without project roots an environment file never passes. */
  lemma NoDotenvWithoutRoots(d: Disk, path: seq<Comp>)
    requires ResolveChecked(d, [], path).Ok?
    ensures var p := ResolveChecked(d, [], path).value;
            p != [] ==> !IsDotenv(d.table.fold(p[|p| - 1]))
  {
    ResolvedPasses(d, [], path);
    var p := ResolveChecked(d, [], path).value;
    assert RootPaths([]) == [];
    assert RootsOf(d.look, RootPaths([])) == [];
    assert p[..|p|] == p;
  }

  // ----- Choosing a grant ----------------------------------------------------------------------------------------

  /** The live grants of one kind for an access, in the order they were made. */
  function Live(grants: seq<Grant>, kind: GrantKind, access: Access, now: nat): (gs: seq<Grant>) {
    if grants == [] then [] else
      var rest, g := Live(grants[..|grants| - 1], kind, access, now), grants[|grants| - 1];
      if g.kind == kind && g.access == access && g.IsActive(now) then rest + [g] else rest
  }

  lemma {:induction false} LiveAre(grants: seq<Grant>, kind: GrantKind, access: Access, now: nat)
    ensures forall g :: g in Live(grants, kind, access, now) <==>
              g in grants && g.kind == kind && g.access == access && g.IsActive(now)
    decreases |grants|
  {
    if grants != [] {
      LiveAre(grants[..|grants| - 1], kind, access, now);
      assert grants == grants[..|grants| - 1] + [grants[|grants| - 1]];
    }
  }

  /** The covering grant with the deepest root, if any covers. */
  ghost predicate IsMostSpecific(gs: seq<Grant>, p: Location, r: Option<Grant>) {
    match r
    case None => forall g :: g in gs ==> !g.Covers(p)
    case Some(best) => best in gs && best.Covers(p) && forall g :: g in gs && g.Covers(p) ==> |g.root| <= |best.root|
  }

  /** Among equally deep roots the last one. */
  function MostSpecificOf(gs: seq<Grant>, p: Location): (r: Option<Grant>)
    ensures IsMostSpecific(gs, p, r)
  {
    if gs == [] then None else
      var best, g := MostSpecificOf(gs[..|gs| - 1], p), gs[|gs| - 1];
      assert gs == gs[..|gs| - 1] + [g];
      if g.Covers(p) && (best.None? || |best.value.root| <= |g.root|) then Some(g) else best
  }

  /** The `k`-th grant covers the place, none before it with a deeper root and none after it with one as deep. */
  ghost predicate DeepestAt(gs: seq<Grant>, p: Location, k: nat) {
    && k < |gs| && gs[k].Covers(p)
    && (forall i :: 0 <= i < k && gs[i].Covers(p) ==> |gs[i].root| <= |gs[k].root|)
    && (forall i :: k < i < |gs| && gs[i].Covers(p) ==> |gs[i].root| < |gs[k].root|)
  }

  lemma DeepestOfOneMore(gs: seq<Grant>, p: Location, k: nat)
    requires gs != [] && DeepestAt(gs[..|gs| - 1], p, k)
    ensures var g := gs[|gs| - 1];
            DeepestAt(gs, p, if g.Covers(p) && |gs[k].root| <= |g.root| then |gs| - 1 else k)
  {
    assert forall i :: 0 <= i < |gs| - 1 ==> gs[..|gs| - 1][i] == gs[i];
  }

  /** Of the deepest covering grants it is the one made last. */
  lemma {:induction false} LastOfDeepest(gs: seq<Grant>, p: Location)
    ensures match MostSpecificOf(gs, p)
            case None => forall i :: 0 <= i < |gs| ==> !gs[i].Covers(p)
            case Some(best) => exists k: nat :: DeepestAt(gs, p, k) && gs[k] == best
    decreases |gs|
  {
    if gs != [] {
      var n := |gs| - 1;
      LastOfDeepest(gs[..n], p);
      match MostSpecificOf(gs[..n], p)
      case None =>
        assert forall i :: 0 <= i < n ==> gs[..n][i] == gs[i];
        assert gs[n].Covers(p) ==> DeepestAt(gs, p, n);
      case Some(_) =>
        var k: nat :| DeepestAt(gs[..n], p, k) && gs[..n][k] == MostSpecificOf(gs[..n], p).value;
        DeepestOfOneMore(gs, p, k);
    }
  }

  method MostSpecific(gs: seq<Grant>, p: Location) returns (r: Option<Grant>)
    ensures r == MostSpecificOf(gs, p)
  {
    r := None;
    assert gs[..0] == [];
    for i := 0 to |gs|
      invariant r == MostSpecificOf(gs[..i], p)
    {
      assert gs[..i + 1][..i] == gs[..i];
      if gs[i].Covers(p) && (r.None? || |r.value.root| <= |gs[i].root|) {
        r := Some(gs[i]);
      }
    }
    assert gs[..|gs|] == gs;
  }

  function RootsIn(gs: seq<Grant>): (roots: seq<Location>) {
    seq(|gs|, i requires 0 <= i < |gs| => gs[i].root)
  }

  /** What an allowed answer rests on: a grant live for the operation that covers the path; full access only
      for reading, and never for an environment file. */
  ghost predicate Rests(d: Disk, grants: seq<Grant>, access: Access, now: nat, p: Location, g: Grant) {
    && g in grants && g.access == access && g.IsActive(now) && g.Covers(p)
    && (g.kind == FullAccess && p != [] ==> !IsDotenv(d.table.fold(p[|p| - 1])))
    && (forall i :: 0 <= i <= |p| ==> MatchRules(d.table, p[..i]).None?)
  }

  // ----- What a stored state must satisfy ----------------------------------------------------------------------------

  /** What loading asks of one grant. */
  predicate ValidGrant(d: Disk, g: Grant, nextId: nat) {
    && g.id < nextId
    && Checked(d, [], Names(g.root)).Some?
    && !(g.access == Write && g.root == [])
    && !d.blank(g.grantedBy) && !d.blank(g.reason)
    && (g.expiresAt.Some? ==> g.grantedAt < g.expiresAt.value)
    && (g.kind == FullAccess ==>
          g.access == Read && g.expiresAt.Some? && g.expiresAt.value - g.grantedAt <= FULL_ACCESS_MAX_TTL_SECS)
  }

  ghost predicate ValidState(d: Disk, grants: seq<Grant>, nextId: nat) {
    && (forall i :: 0 <= i < |grants| ==> ValidGrant(d, grants[i], nextId))
    && (forall i, j :: 0 <= i < j < |grants| ==> grants[i].id != grants[j].id)
  }

  lemma ValidStateGrows(d: Disk, grants: seq<Grant>, nextId: nat, g: Grant)
    requires g.id == nextId && ValidGrant(d, g, nextId + 1)
    ensures ValidState(d, grants, nextId) ==> ValidState(d, grants + [g], nextId + 1)
  {
  }

  /** Every grant passes, and no id comes twice. */
  ghost predicate AllGood(grants: seq<Grant>, good: Grant -> bool) {
    && (forall i :: 0 <= i < |grants| ==> good(grants[i]))
    && (forall i, j :: 0 <= i < j < |grants| ==> grants[i].id != grants[j].id)
  }

  method CheckEach(grants: seq<Grant>, good: Grant -> bool) returns (ok: bool)
    ensures ok <==> AllGood(grants, good)
  {
    var seen: set<nat> := {};
    for k := 0 to |grants|
      invariant forall i :: 0 <= i < k ==> good(grants[i])
      invariant forall n :: n in seen <==> exists i :: 0 <= i < k && grants[i].id == n
      invariant forall i, j :: 0 <= i < j < k ==> grants[i].id != grants[j].id
    {
      if !good(grants[k]) || grants[k].id in seen {
        return false;
      }
      seen := seen + {grants[k].id};
    }
    return true;
  }

  /** Loading: every grant is checked, and the whole document is refused on any violation. */
  method Validate(d: Disk, grants: seq<Grant>, nextId: nat) returns (ok: bool)
    ensures ok <==> ValidState(d, grants, nextId)
  {
    var good := (g: Grant) => ValidGrant(d, g, nextId);
    ok := CheckEach(grants, good);
    assert forall i :: 0 <= i < |grants| ==> good(grants[i]) == ValidGrant(d, grants[i], nextId);
  }

  /** Full access ends within a day of its grant, and only ever reads. */
  lemma FullAccessIsShort(d: Disk, grants: seq<Grant>, nextId: nat, g: Grant, now: nat)
    requires ValidState(d, grants, nextId) && g in grants && g.kind == FullAccess && g.IsActive(now)
    ensures g.access == Read && now < g.grantedAt + FULL_ACCESS_MAX_TTL_SECS
  {
  }

  /** When the grant would end, or why its time limit is refused. */
  function Expiry(kind: GrantKind, ttl: Option<nat>, now: nat): (r: Result<Option<nat>, GrantError>) {
    if ttl == Some(0) then Err(BadTtl)
    else if kind == FullAccess && ttl.None? then Err(BadTtl)
    else if kind == FullAccess && ttl.value > FULL_ACCESS_MAX_TTL_SECS then Err(BadTtl)
    else if ttl.None? then Ok(None)
    else if now + ttl.value > U64_MAX then Err(BadTtl)
    else Ok(Some(now + ttl.value))
  }

  /** A time limit is refused exactly when it is zero, when full access has none or one of more than a day, or when
      it would end beyond the clock; otherwise the grant ends that many seconds from now, or never. */
  lemma ExpiryExactly(kind: GrantKind, ttl: Option<nat>, now: nat)
    ensures Expiry(kind, ttl, now).Ok? <==>
              match ttl
              case None => kind == Folder
              case Some(secs) => 0 < secs && (kind == FullAccess ==> secs <= 86_400) && now + secs < 0x1_0000_0000_0000_0000
    ensures Expiry(kind, ttl, now).Err? ==> Expiry(kind, ttl, now).error == BadTtl
    ensures Expiry(kind, ttl, now).Ok? ==>
              match ttl
              case None => Expiry(kind, ttl, now).value == None
              case Some(secs) => Expiry(kind, ttl, now).value == Some(now + secs)
  {
  }

  /** What a state that loads says of each grant in it. */
  lemma LoadedGrantSays(d: Disk, grants: seq<Grant>, nextId: nat, g: Grant)
    requires ValidState(d, grants, nextId) && g in grants
    ensures g.id < nextId && !d.blank(g.grantedBy) && !d.blank(g.reason)
    ensures g.access == Write ==> |g.root| > 0 && g.kind == Folder
    ensures g.expiresAt.Some? ==> g.grantedAt < g.expiresAt.value
    ensures g.kind == FullAccess ==> g.expiresAt.Some? && g.expiresAt.value <= g.grantedAt + 86_400
    ensures forall i :: 0 <= i <= |g.root| ==> !Protected(d.table, g.root[..i])
    ensures forall h :: h in grants && h.id == g.id ==> h == g
  {
    var i :| 0 <= i < |grants| && grants[i] == g;
    assert ValidGrant(d, grants[i], nextId);
    StoredRootIsClear(d, g.root);
  }

  /** A location that resolves to itself passes at every level. */
  lemma StoredRootIsClear(d: Disk, root: Location)
    requires Checked(d, [], Names(root)).Some?
    ensures forall i :: 0 <= i <= |root| ==> !Protected(d.table, root[..i])
  {
    var roots := RootsOf(d.look, RootPaths([]));
    LexicalOfNames(root);
    forall i | 0 <= i <= |root| ensures !Protected(d.table, root[..i]) {
      PassesExactly(d.table, roots, root);
      DeniedExactly(d.table, root);
      DeniedExactly(d.table, root[..i]);
      if Protected(d.table, root[..i]) {
        DeniedBelow(d.table, root[..i], root);
      }
    }
  }

  lemma {:induction false} LexicalOfNames(p: Location)
    ensures LexicalOf(Names(p)) == p
    decreases |p|
  {
    if p != [] {
      var init := p[..|p| - 1];
      LexicalOfNames(init);
      assert Names(p)[..|p| - 1] == Names(init);
    }
  }

  /** The `i`-th grant is the one named, was not revoked, and is now. */
  predicate RevokedAt(before: seq<Grant>, i: nat, id: nat, now: nat, after: seq<Grant>)
    requires i < |before|
  {
    before[i].id == id && before[i].revokedAt.None? && after == before[i := before[i].(revokedAt := Some(now))]
  }

  class FolderGrants {
    var nextId: nat
    var grants: seq<Grant>

    constructor ()
      ensures nextId == 1 && grants == []
    {
      nextId, grants := 1, [];
    }

    /** The folder a grant stores for a requested root. */
    method CanonicalRoot(d: Disk, root: seq<Comp>) returns (r: Result<Location, GrantError>)
      ensures r.Ok? ==> ResolveChecked(d, [], root) == Ok(r.value) && d.isDir(r.value)
      ensures r.Err? ==> ResolveChecked(d, [], root).Err? || !d.isDir(ResolveChecked(d, [], root).value)
    {
      var resolved := ResolvePath(d, [], root);
      match resolved
      case Err(DenyList) => return Err(RootDenied);
      case Err(_) => return Err(RootUnresolvable);
      case Ok(spelled) =>
        if !d.isDir(spelled) {
          return Err(RootNotADirectory);
        }
        return Ok(spelled);
    }

    /** Creates a grant. Every state it leaves is one that loads again on the same file tree. */
    method MakeGrant(d: Disk, req: Request, now: nat) returns (r: Result<nat, GrantError>)
      requires now <= U64_MAX
      modifies this
      ensures old(ValidState(d, grants, nextId)) ==> ValidState(d, grants, nextId)
      ensures r.Err? ==> grants == old(grants) && nextId == old(nextId)
      ensures r.Ok? <==>
                && !d.blank(req.grantedBy) && !d.blank(req.reason) && !(req.kind == FullAccess && req.access == Write)
                && Expiry(req.kind, req.ttlSecs, now).Ok?
                && ResolveChecked(d, [], req.root).Ok? && d.isDir(ResolveChecked(d, [], req.root).value)
                && !(req.access == Write && ResolveChecked(d, [], req.root).value == [])
                && old(nextId) < U64_MAX
      ensures r.Ok? ==>
                && r.value == old(nextId) && nextId == old(nextId) + 1 && nextId <= U64_MAX
                && ResolveChecked(d, [], req.root).Ok? && Expiry(req.kind, req.ttlSecs, now).Ok?
                && grants == old(grants) + [Grant(
                     old(nextId), req.kind, ResolveChecked(d, [], req.root).value, req.access, req.scope, now,
                     Expiry(req.kind, req.ttlSecs, now).value, req.grantedBy, req.reason, None)]
    {
      if d.blank(req.grantedBy) {
        return Err(MissingGrantedBy);
      }
      if d.blank(req.reason) {
        return Err(MissingReason);
      }
      if req.kind == FullAccess && req.access != Read {
        return Err(FullAccessIsReadOnly);
      }
      var expiresAt :- Expiry(req.kind, req.ttlSecs, now);
      var root :- CanonicalRoot(d, req.root);
      if req.access == Write && root == [] {
        return Err(WriteOnFilesystemRoot);
      }
      if nextId + 1 > U64_MAX {
        return Err(IdsExhausted);
      }
      ResolvedPasses(d, [], req.root);
      var id := nextId;
      var g := Grant(id, req.kind, root, req.access, req.scope, now, expiresAt, req.grantedBy, req.reason, None);
      ValidStateGrows(d, grants, nextId, g);
      grants := grants + [g];
      nextId := nextId + 1;
      return Ok(id);
    }

    /** Revokes a grant, from now on and for ever. */
    method Revoke(id: nat, now: nat, ghost d: Disk) returns (r: Result<(), GrantError>)
      modifies this
      ensures old(ValidState(d, grants, nextId)) ==> ValidState(d, grants, nextId)
      ensures nextId == old(nextId) && |grants| == |old(grants)|
      ensures r.Err? ==> grants == old(grants)
      ensures r.Ok? ==> exists i :: 0 <= i < |grants| && RevokedAt(old(grants), i, id, now, grants)
      ensures r == Err(UnknownGrant) <==> forall i :: 0 <= i < |old(grants)| ==> old(grants)[i].id != id
      ensures r.Err? && r != Err(UnknownGrant) ==>
                r == Err(AlreadyRevoked) && exists i :: 0 <= i < |grants| && grants[i].id == id && grants[i].revokedAt.Some?
    {
      for i := 0 to |grants|
        invariant grants == old(grants) && nextId == old(nextId)
        invariant forall j :: 0 <= j < i ==> grants[j].id != id
      {
        if grants[i].id == id {
          if grants[i].revokedAt.Some? {
            return Err(AlreadyRevoked);
          }
          grants := grants[i := grants[i].(revokedAt := Some(now))];
          assert RevokedAt(old(grants), i, id, now, grants);
          return Ok(());
        }
      }
      return Err(UnknownGrant);
    }

    /** May the agent do this now? First the folder grants, whose roots may hold environment files, then full
        access, with the deny list asked again without any such root. */
    method Check(d: Disk, path: seq<Comp>, access: Access, now: nat) returns (r: Result<(Location, nat), DenialReason>)
      ensures r == AnswerOf(d, grants, path, access, now)
      ensures r.Ok? <==> Grantable(d, grants, path, access, now)
      ensures r.Ok? ==> exists g: Grant :: g.id == r.value.1 && Rests(d, grants, access, now, r.value.0, g)
    {
      AllowedIsGrantable(d, grants, path, access, now);
      if AnswerOf(d, grants, path, access, now).Ok? {
        AllowedRests(d, grants, path, access, now);
      }
      var folders := Live(grants, Folder, access, now);
      var canonical :- ResolvePath(d, RootsIn(folders), path);
      var best := MostSpecific(folders, canonical);
      if best.Some? {
        return Ok((canonical, best.value.id));
      }
      var full := Live(grants, FullAccess, access, now);
      if full == [] {
        return Err(NoGrant);
      }
      var again :- ResolvePath(d, [], path);
      var most := MostSpecific(full, again);
      if most.None? {
        return Err(NoGrant);
      }
      return Ok((again, most.value.id));
    }
  }

  // ----- What an answer means ------------------------------------------------------------------------------------

  /** The answer for a path: where it leads and the grant that allows it, folder grants first. */
  function AnswerOf(d: Disk, grants: seq<Grant>, path: seq<Comp>, access: Access, now: nat)
    : (r: Result<(Location, nat), DenialReason>)
  {
    var folders, full := Live(grants, Folder, access, now), Live(grants, FullAccess, access, now);
    match ResolveChecked(d, RootsIn(folders), path)
    case Err(e) => Err(e)
    case Ok(p) =>
      match MostSpecificOf(folders, p)
      case Some(g) => Ok((p, g.id))
      case None =>
        if full == [] then Err(NoGrant) else
          match ResolveChecked(d, [], path)
          case Err(e) => Err(e)
          case Ok(q) =>
            match MostSpecificOf(full, q)
            case Some(g) => Ok((q, g.id))
            case None => Err(NoGrant)
  }

  lemma FolderAnswerRests(d: Disk, grants: seq<Grant>, path: seq<Comp>, access: Access, now: nat, p: Location, g: Grant)
    requires var folders := Live(grants, Folder, access, now);
             ResolveChecked(d, RootsIn(folders), path) == Ok(p) && MostSpecificOf(folders, p) == Some(g)
    ensures Rests(d, grants, access, now, p, g) && g.kind == Folder
  {
    LiveAre(grants, Folder, access, now);
    ResolvedPasses(d, RootsIn(Live(grants, Folder, access, now)), path);
  }

  lemma FullAnswerRests(d: Disk, grants: seq<Grant>, path: seq<Comp>, access: Access, now: nat, p: Location, g: Grant)
    requires ResolveChecked(d, [], path) == Ok(p) && MostSpecificOf(Live(grants, FullAccess, access, now), p) == Some(g)
    ensures Rests(d, grants, access, now, p, g)
  {
    LiveAre(grants, FullAccess, access, now);
    ResolvedPasses(d, [], path);
    NoDotenvWithoutRoots(d, path);
  }

  /** Every allowed answer rests on a grant of that id. */
  lemma AllowedRests(d: Disk, grants: seq<Grant>, path: seq<Comp>, access: Access, now: nat)
    requires AnswerOf(d, grants, path, access, now).Ok?
    ensures var (p, id) := AnswerOf(d, grants, path, access, now).value;
            exists g: Grant :: g.id == id && Rests(d, grants, access, now, p, g)
  {
    var folders, full := Live(grants, Folder, access, now), Live(grants, FullAccess, access, now);
    var first := ResolveChecked(d, RootsIn(folders), path).value;
    var best := MostSpecificOf(folders, first);
    if best.Some? {
      FolderAnswerRests(d, grants, path, access, now, first, best.value);
    } else {
      var second := ResolveChecked(d, [], path).value;
      FullAnswerRests(d, grants, path, access, now, second, MostSpecificOf(full, second).value);
    }
  }

  /** Exactly when an operation is allowed. */
  ghost predicate Grantable(d: Disk, grants: seq<Grant>, path: seq<Comp>, access: Access, now: nat) {
    var folders, full := Live(grants, Folder, access, now), Live(grants, FullAccess, access, now);
    var first := ResolveChecked(d, RootsIn(folders), path);
    && first.Ok?
    && ((exists g :: g in folders && g.Covers(first.value))
        || (ResolveChecked(d, [], path).Ok? && exists g :: g in full && g.Covers(ResolveChecked(d, [], path).value)))
  }

  /** The check allows an operation exactly when it is grantable. */
  lemma AllowedIsGrantable(d: Disk, grants: seq<Grant>, path: seq<Comp>, access: Access, now: nat)
    ensures AnswerOf(d, grants, path, access, now).Ok? <==> Grantable(d, grants, path, access, now)
  {
  }

  /** The grant is for this operation, has been given, has not ended and was not revoked. */
  predicate InForce(g: Grant, kind: GrantKind, access: Access, now: nat) {
    && g.kind == kind && g.access == access && g.revokedAt == None && g.grantedAt <= now
    && (match g.expiresAt case None => true case Some(end) => now < end)
  }

  /** The place is the granted folder or below it; directly below it when the grant is a shallow one. */
  predicate Reaches(g: Grant, p: Location) {
    && |g.root| <= |p| && (forall i :: 0 <= i < |g.root| ==> p[i] == g.root[i])
    && (g.scope == Shallow ==> |p| <= |g.root| + 1)
  }

  lemma CoversExactly(g: Grant, p: Location)
    ensures g.Covers(p) <==> Reaches(g, p)
  {
    if Reaches(g, p) {
      assert p[..|g.root|] == g.root;
      if |p| == |g.root| {
        assert p == g.root;
      }
    }
    if g.Covers(p) && p != g.root && g.scope == Shallow {
      assert forall i :: 0 <= i < |g.root| ==> p[i] == Parent(p)[i];
    }
  }

  /** An operation is allowed exactly when the path resolves and some grant in force reaches the place: a folder
      grant, or, when it resolves without counting any granted folder as a project too, full access. */
  lemma AllowedExactly(d: Disk, grants: seq<Grant>, path: seq<Comp>, access: Access, now: nat)
    ensures AnswerOf(d, grants, path, access, now).Ok? <==>
              var first := ResolveChecked(d, RootsIn(Live(grants, Folder, access, now)), path);
              var again := ResolveChecked(d, [], path);
              && first.Ok?
              && ((exists g :: g in grants && InForce(g, Folder, access, now) && Reaches(g, first.value))
                  || (again.Ok? && exists g :: g in grants && InForce(g, FullAccess, access, now) && Reaches(g, again.value)))
  {
    AllowedIsGrantable(d, grants, path, access, now);
    LiveAre(grants, Folder, access, now);
    LiveAre(grants, FullAccess, access, now);
    forall g: Grant, p: Location ensures g.Covers(p) <==> Reaches(g, p) {
      CoversExactly(g, p);
    }
    assert forall g: Grant, kind: GrantKind {:trigger InForce(g, kind, access, now)} ::
        InForce(g, kind, access, now) <==> g.kind == kind && g.access == access && g.IsActive(now);
  }

  lemma RestsMeans(d: Disk, grants: seq<Grant>, access: Access, now: nat, p: Location, g: Grant)
    requires Rests(d, grants, access, now, p, g)
    ensures InForce(g, g.kind, access, now) && Reaches(g, p)
    ensures forall i :: 0 <= i <= |p| ==> !Protected(d.table, p[..i])
    ensures p != [] && EnvName(d.table.fold(p[|p| - 1])) ==> g.kind == Folder
  {
    CoversExactly(g, p);
    forall i | 0 <= i <= |p| ensures !Protected(d.table, p[..i]) {
      DeniedExactly(d.table, p[..i]);
    }
    if p != [] {
      EnvNameExactly(d.table.fold(p[|p| - 1]));
    }
  }

  /** What an allowed answer says: in a valid state the grant it names is in force and reaches the place, nothing on
      the way there is named by a rule, a write rests on a folder grant that is not for the whole disk, and so does
      anything done to an environment file. */
  lemma AllowedMeans(
      d: Disk, grants: seq<Grant>, nextId: nat, path: seq<Comp>, access: Access, now: nat, p: Location, g: Grant)
    requires ValidState(d, grants, nextId) && g in grants && AnswerOf(d, grants, path, access, now) == Ok((p, g.id))
    ensures InForce(g, g.kind, access, now) && Reaches(g, p)
    ensures forall i :: 0 <= i <= |p| ==> !Protected(d.table, p[..i])
    ensures access == Write ==> g.kind == Folder && g.root != []
    ensures p != [] && EnvName(d.table.fold(p[|p| - 1])) ==> g.kind == Folder
  {
    AnswersGrant(d, grants, nextId, path, access, now, g);
    LoadedGrantSays(d, grants, nextId, g);
    RestsMeans(d, grants, access, now, p, g);
  }

  /** In a valid state an id names one grant, so an answer's id says which grant it rests on. */
  lemma AnswersGrant(d: Disk, grants: seq<Grant>, nextId: nat, path: seq<Comp>, access: Access, now: nat, g: Grant)
    requires ValidState(d, grants, nextId) && AnswerOf(d, grants, path, access, now).Ok?
    requires g in grants && g.id == AnswerOf(d, grants, path, access, now).value.1
    ensures Rests(d, grants, access, now, AnswerOf(d, grants, path, access, now).value.0, g)
  {
    AllowedRests(d, grants, path, access, now);
    var (p, id) := AnswerOf(d, grants, path, access, now).value;
    var h: Grant :| h.id == id && Rests(d, grants, access, now, p, h);
    assert h == g;
  }

  /** Whatever the path, a write that is allowed in a valid state is allowed by a folder grant, for a place
      the grant covers. */
  lemma WritesNeverComeFromFullAccess(d: Disk, grants: seq<Grant>, nextId: nat, path: seq<Comp>, now: nat, g: Grant)
    requires ValidState(d, grants, nextId) && AnswerOf(d, grants, path, Write, now).Ok?
    requires g in grants && g.id == AnswerOf(d, grants, path, Write, now).value.1
    ensures g.kind == Folder && g.Covers(AnswerOf(d, grants, path, Write, now).value.0) && g.IsActive(now)
  {
    AnswersGrant(d, grants, nextId, path, Write, now, g);
  }

  /** Whatever the path, and however many links it goes through: if it leads to an environment file and the
      answer allows it, the grant named is a folder grant, live for the operation, that covers the file. */
  lemma DotenvNeedsAFolderGrant(
      d: Disk, grants: seq<Grant>, nextId: nat, path: seq<Comp>, access: Access, now: nat, g: Grant)
    requires ValidState(d, grants, nextId) && AnswerOf(d, grants, path, access, now).Ok?
    requires g in grants && g.id == AnswerOf(d, grants, path, access, now).value.1
    requires var p := AnswerOf(d, grants, path, access, now).value.0; p != [] && IsDotenv(d.table.fold(p[|p| - 1]))
    ensures g.kind == Folder && g.access == access && g.IsActive(now)
    ensures g.Covers(AnswerOf(d, grants, path, access, now).value.0)
  {
    AnswersGrant(d, grants, nextId, path, access, now, g);
  }
}
