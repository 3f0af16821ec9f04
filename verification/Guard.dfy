/** The default-deny check of `agent-guard/src/lib.rs`. */
module Guard {
  // A path is resolved as the kernel would, and every location met on the way is matched against the deny list.

  import opened Wrappers

  /** An absolute location without links: the components below the root. */
  type Location = seq<string>

  datatype Comp = Up | Name(name: string)

  /** What a link holds. */
  datatype Target = Target(absolute: bool, comps: seq<Comp>)

  /** What looking at a location reports; `Absent` also where a parent is no directory. */
  datatype Entry = Link(target: Target) | Plain | Absent | Unreadable

  datatype Trouble = DeniedAt(at: Location) | TooManyLinks | CannotInspect(at: Location)

  /** Where a walk ended, and how many links it may still follow. */
  datatype Walked = Walked(at: Location, links: nat)

  const MAX_SYMLINKS := 40

  function Parent(p: Location): (r: Location) {
    if p == [] then [] else p[..|p| - 1]
  }

  function Names(p: Location): (cs: seq<Comp>) {
    seq(|p|, i requires 0 <= i < |p| => Name(p[i]))
  }

  // ----- Pathname resolution -----------------------------------------------------------------------------

  /** Resolution as POSIX describes it: the first component still to do is looked up in the directory
      reached; the content of a link is put in front of the rest. `ok` is asked at every location. */
  function Resolve(fs: Location -> Entry, ok: Location -> bool, cur: Location, todo: seq<Comp>, links: nat)
    : (r: Result<Walked, Trouble>)
    decreases links, |todo|
  {
    if todo == [] then Ok(Walked(cur, links)) else
      match todo[0]
      case Up =>
        if !ok(Parent(cur)) then Err(DeniedAt(Parent(cur))) else Resolve(fs, ok, Parent(cur), todo[1..], links)
      case Name(name) =>
        var next := cur + [name];
        if !ok(next) then Err(DeniedAt(next)) else
          match fs(next)
          case Unreadable => Err(CannotInspect(next))
          case Link(target) =>
            if links == 0 then Err(TooManyLinks)
            else Resolve(fs, ok, if target.absolute then [] else cur, target.comps + todo[1..], links - 1)
          case _ => Resolve(fs, ok, next, todo[1..], links)
  }

  /** No location on the way to `p` is a link or unreadable, and all of them, the root included, pass. */
  ghost predicate Settled(fs: Location -> Entry, ok: Location -> bool, p: Location) {
    && (forall i :: 0 <= i <= |p| ==> ok(p[..i]))
    && (forall i :: 0 < i <= |p| ==> fs(p[..i]).Plain? || fs(p[..i]).Absent?)
  }

  lemma SettledPrefix(fs: Location -> Entry, ok: Location -> bool, p: Location, n: nat)
    requires Settled(fs, ok, p) && n <= |p|
    ensures Settled(fs, ok, p[..n])
  {
    assert forall i :: 0 <= i <= n ==> p[..n][..i] == p[..i];
  }

  lemma SettledGrows(fs: Location -> Entry, ok: Location -> bool, p: Location, name: string)
    requires Settled(fs, ok, p) && ok(p + [name]) && (fs(p + [name]).Plain? || fs(p + [name]).Absent?)
    ensures Settled(fs, ok, p + [name])
  {
    var q := p + [name];
    forall i | 0 <= i <= |q| ensures ok(q[..i]) && (0 < i ==> fs(q[..i]).Plain? || fs(q[..i]).Absent?) {
      if i <= |p| {
        assert q[..i] == p[..i];
      } else {
        assert q[..i] == q;
      }
    }
  }

  /** From a settled location the walk only reaches settled ones: the result has no link in it. */
  lemma {:induction false} ResolveSettles(
      fs: Location -> Entry, ok: Location -> bool, cur: Location, todo: seq<Comp>, links: nat)
    requires Settled(fs, ok, cur) && Resolve(fs, ok, cur, todo, links).Ok?
    ensures var r := Resolve(fs, ok, cur, todo, links).value;
            Settled(fs, ok, r.at) && r.links <= links
    decreases links, |todo|
  {
    if todo != [] {
      match todo[0]
      case Up =>
        if cur != [] {
          SettledPrefix(fs, ok, cur, |cur| - 1);
        }
        ResolveSettles(fs, ok, Parent(cur), todo[1..], links);
      case Name(name) =>
        var next := cur + [name];
        match fs(next) {
        case Unreadable =>
        case Link(target) =>
          SettledPrefix(fs, ok, cur, 0);
          assert cur[..0] == [];
          ResolveSettles(fs, ok, if target.absolute then [] else cur, target.comps + todo[1..], links - 1);
        case _ =>
          SettledGrows(fs, ok, cur, name);
          ResolveSettles(fs, ok, next, todo[1..], links);
        }
    }
  }

  /** Walking a path made of two parts. */
  lemma {:induction false} ResolveConcat(
      fs: Location -> Entry, ok: Location -> bool, cur: Location, a: seq<Comp>, b: seq<Comp>, links: nat)
    ensures Resolve(fs, ok, cur, a + b, links) ==
            match Resolve(fs, ok, cur, a, links)
            case Err(e) => Err(e)
            case Ok(w) => Resolve(fs, ok, w.at, b, w.links)
    decreases links, |a|
  {
    if a == [] {
      assert a + b == b;
    } else {
      assert (a + b)[0] == a[0] && (a + b)[1..] == a[1..] + b;
      match a[0]
      case Up => ResolveConcat(fs, ok, Parent(cur), a[1..], b, links);
      case Name(name) =>
        var next := cur + [name];
        match fs(next) {
        case Unreadable =>
        case Link(target) =>
          if links > 0 {
            assert target.comps + (a[1..] + b) == (target.comps + a[1..]) + b;
            ResolveConcat(fs, ok, if target.absolute then [] else cur, target.comps + a[1..], b, links - 1);
          }
        case _ => ResolveConcat(fs, ok, next, a[1..], b, links);
        }
    }
  }

  /** Walking to a settled location again ends there, and follows no link. */
  lemma {:induction false} RewalkIsFree(fs: Location -> Entry, ok: Location -> bool, p: Location, n: nat, links: nat)
    requires Settled(fs, ok, p) && n <= |p|
    ensures Resolve(fs, ok, p[..n], Names(p)[n..], links) == Ok(Walked(p, links))
    decreases |p| - n
  {
    if n == |p| {
      assert p[..n] == p && Names(p)[n..] == [];
    } else {
      var todo := Names(p)[n..];
      assert todo[0] == Name(p[n]) && todo[1..] == Names(p)[n + 1..];
      assert p[..n] + [p[n]] == p[..n + 1];
      RewalkIsFree(fs, ok, p, n + 1, links);
    }
  }

  /** The check of its own result spends nothing and changes nothing. */
  lemma WalkIsIdempotent(fs: Location -> Entry, ok: Location -> bool, path: seq<Comp>, links: nat, again: nat)
    requires ok([]) && Resolve(fs, ok, [], path, links).Ok?
    ensures var p := Resolve(fs, ok, [], path, links).value.at;
            Resolve(fs, ok, [], Names(p), again) == Ok(Walked(p, again))
  {
    ResolveSettles(fs, ok, [], path, links);
    var p := Resolve(fs, ok, [], path, links).value.at;
    RewalkIsFree(fs, ok, p, 0, again);
    assert p[..0] == [] && Names(p)[0..] == Names(p);
  }

  /** A larger budget does not change where a walk ends. */
  lemma {:induction false} BudgetIsMonotone(
      fs: Location -> Entry, ok: Location -> bool, cur: Location, todo: seq<Comp>, links: nat, more: nat)
    requires Resolve(fs, ok, cur, todo, links).Ok?
    ensures var w := Resolve(fs, ok, cur, todo, links).value;
            Resolve(fs, ok, cur, todo, links + more) == Ok(Walked(w.at, w.links + more))
    decreases links, |todo|
  {
    if todo != [] {
      match todo[0]
      case Up => BudgetIsMonotone(fs, ok, Parent(cur), todo[1..], links, more);
      case Name(name) =>
        var next := cur + [name];
        match fs(next) {
        case Unreadable =>
        case Link(target) =>
          assert links > 0 && links + more - 1 == links - 1 + more;
          BudgetIsMonotone(fs, ok, if target.absolute then [] else cur, target.comps + todo[1..], links - 1, more);
        case _ => BudgetIsMonotone(fs, ok, next, todo[1..], links, more);
        }
    }
  }

  // ----- What is checked ---------------------------------------------------------------------------------

  /** Every location a resolution meets: each directory reached and each link. */
  function Visited(fs: Location -> Entry, cur: Location, todo: seq<Comp>, links: nat): (vs: set<Location>)
    decreases links, |todo|
  {
    if todo == [] then {} else
      match todo[0]
      case Up => {Parent(cur)} + Visited(fs, Parent(cur), todo[1..], links)
      case Name(name) =>
        var next := cur + [name];
        {next} +
        match fs(next)
        case Unreadable => {}
        case Link(target) =>
          if links == 0 then {}
          else Visited(fs, if target.absolute then [] else cur, target.comps + todo[1..], links - 1)
        case _ => Visited(fs, next, todo[1..], links)
  }

  const ANYWHERE: Location -> bool := (p: Location) => true

  /** A checked walk succeeds exactly when the path resolves and every location it meets passes, and then
      it ends where the path resolves to. */
  lemma {:induction false} EveryVisitIsChecked(
      fs: Location -> Entry, ok: Location -> bool, cur: Location, todo: seq<Comp>, links: nat)
    ensures var free := Resolve(fs, ANYWHERE, cur, todo, links);
            && (Resolve(fs, ok, cur, todo, links).Ok? <==>
                  free.Ok? && forall v :: v in Visited(fs, cur, todo, links) ==> ok(v))
            && (Resolve(fs, ok, cur, todo, links).Ok? ==> Resolve(fs, ok, cur, todo, links) == free)
    decreases links, |todo|
  {
    if todo != [] {
      match todo[0]
      case Up => EveryVisitIsChecked(fs, ok, Parent(cur), todo[1..], links);
      case Name(name) =>
        var next := cur + [name];
        match fs(next) {
        case Unreadable =>
        case Link(target) =>
          if links > 0 {
            EveryVisitIsChecked(fs, ok, if target.absolute then [] else cur, target.comps + todo[1..], links - 1);
          }
        case _ => EveryVisitIsChecked(fs, ok, next, todo[1..], links);
        }
    }
  }

  // ----- The walk -------------------------------------------------------------------------------------------

  /** What a walk from the root answers. */
  function WalkOf(fs: Location -> Entry, ok: Location -> bool, path: seq<Comp>, links: nat): (r: Result<Walked, Trouble>) {
    if !ok([]) then Err(DeniedAt([])) else Resolve(fs, ok, [], path, links)
  }

  lemma LinkStep(
      fs: Location -> Entry, ok: Location -> bool, cur: Location, todo: seq<Comp>, links: nat)
    requires ok([]) && Settled(fs, ok, cur) && links > 0
    requires todo != [] && todo[0].Name? && ok(cur + [todo[0].name]) && fs(cur + [todo[0].name]).Link?
    ensures var target := fs(cur + [todo[0].name]).target;
            var joined := if target.absolute then target.comps else Names(cur) + target.comps;
            Resolve(fs, ok, cur, todo, links) ==
            match Resolve(fs, ok, [], joined, links - 1)
            case Err(e) => Err(e)
            case Ok(w) => Resolve(fs, ok, w.at, todo[1..], w.links)
  {
    var target := fs(cur + [todo[0].name]).target;
    ResolveConcat(fs, ok, if target.absolute then [] else cur, target.comps, todo[1..], links - 1);
    if !target.absolute {
      ResolveConcat(fs, ok, [], Names(cur), target.comps, links - 1);
      RewalkIsFree(fs, ok, cur, 0, links - 1);
      assert cur[..0] == [] && Names(cur)[0..] == Names(cur);
    }
  }

  lemma RootIsSettled(fs: Location -> Entry, ok: Location -> bool)
    requires ok([])
    ensures Settled(fs, ok, [])
  {
    var root: Location := [];
    assert root[..0] == [];
  }

  /** The walk of the code: at a link it starts over from the root with the link's content behind what was
      reached. It does what pathname resolution does. */
  method Walk(fs: Location -> Entry, ok: Location -> bool, path: seq<Comp>, links: nat)
    returns (r: Result<Walked, Trouble>)
    ensures r == WalkOf(fs, ok, path, links)
    decreases links
  {
    var cur: Location := [];
    if !ok(cur) {
      return Err(DeniedAt(cur));
    }
    RootIsSettled(fs, ok);
    var left: nat := links;
    for i := 0 to |path|
      invariant left <= links && Settled(fs, ok, cur)
      invariant Resolve(fs, ok, [], path, links) == Resolve(fs, ok, cur, path[i..], left)
    {
      assert path[i..][0] == path[i] && path[i..][1..] == path[i + 1..];
      match path[i]
      case Up =>
        if cur != [] {
          SettledPrefix(fs, ok, cur, |cur| - 1);
        }
        cur := Parent(cur);
        assert ok(cur[..|cur|]) && cur[..|cur|] == cur;
      case Name(name) =>
        var next := cur + [name];
        if !ok(next) {
          return Err(DeniedAt(next));
        }
        match fs(next) {
        case Unreadable =>
          return Err(CannotInspect(next));
        case Link(target) =>
          if left == 0 {
            return Err(TooManyLinks);
          }
          LinkStep(fs, ok, cur, path[i..], left);
          var joined := if target.absolute then target.comps else Names(cur) + target.comps;
          var walked :- Walk(fs, ok, joined, left - 1);
          ResolveSettles(fs, ok, [], joined, left - 1);
          cur, left := walked.at, walked.links;
        case _ =>
          SettledGrows(fs, ok, cur, name);
          cur := next;
        }
    }
    return Ok(Walked(cur, left));
  }

  // ----- The lexical pass ------------------------------------------------------------------------------------

  function LexicalOf(path: seq<Comp>): (p: Location) {
    if path == [] then [] else
      match path[|path| - 1]
      case Up => Parent(LexicalOf(path[..|path| - 1]))
      case Name(name) => LexicalOf(path[..|path| - 1]) + [name]
  }

  method Lexical(path: seq<Comp>) returns (p: Location)
    ensures p == LexicalOf(path)
  {
    p := [];
    assert path[..0] == [];
    for i := 0 to |path|
      invariant p == LexicalOf(path[..i])
    {
      assert path[..i + 1][..i] == path[..i];
      match path[i]
      case Up => p := Parent(p);
      case Name(name) => p := p + [name];
    }
    assert path[..|path|] == path;
  }

  /** Where no link is met, the path resolves to what it spells. */
  lemma {:induction false} LexicalWithoutLinks(fs: Location -> Entry, path: seq<Comp>, links: nat)
    requires Resolve(fs, ANYWHERE, [], path, links).Ok?
    requires forall v :: v in Visited(fs, [], path, links) ==> !fs(v).Link?
    ensures Resolve(fs, ANYWHERE, [], path, links) == Ok(Walked(LexicalOf(path), links))
    decreases |path|
  {
    if path != [] {
      var init, last := path[..|path| - 1], path[|path| - 1..];
      assert path == init + last && last[1..] == [];
      ResolveConcat(fs, ANYWHERE, [], init, last, links);
      VisitedConcat(fs, [], init, last, links);
      LexicalWithoutLinks(fs, init, links);
      var at := LexicalOf(init);
      assert Resolve(fs, ANYWHERE, at, last, links).Ok?;
      match last[0]
      case Up =>
      case Name(name) =>
        assert at + [name] in Visited(fs, at, last, links);
    }
  }

  lemma {:induction false} VisitedConcat(
      fs: Location -> Entry, cur: Location, a: seq<Comp>, b: seq<Comp>, links: nat)
    requires Resolve(fs, ANYWHERE, cur, a, links).Ok?
    ensures var w := Resolve(fs, ANYWHERE, cur, a, links).value;
            Visited(fs, cur, a + b, links) == Visited(fs, cur, a, links) + Visited(fs, w.at, b, w.links)
    decreases links, |a|
  {
    if a == [] {
      assert a + b == b;
    } else {
      assert (a + b)[0] == a[0] && (a + b)[1..] == a[1..] + b;
      match a[0]
      case Up => VisitedConcat(fs, Parent(cur), a[1..], b, links);
      case Name(name) =>
        var next := cur + [name];
        match fs(next) {
        case Unreadable =>
        case Link(target) =>
          assert target.comps + (a[1..] + b) == (target.comps + a[1..]) + b;
          VisitedConcat(fs, if target.absolute then [] else cur, target.comps + a[1..], b, links - 1);
        case _ => VisitedConcat(fs, next, a[1..], b, links);
        }
    }
  }

  // ----- The deny list ----------------------------------------------------------------------------------------

  datatype DenyCategory =
    | Credentials | Keychain | BrowserProfile | WalletStorage | CitrateAppData | ShellHistory | DotEnv | SystemPath
    | Malformed | Unresolvable

  datatype Anchor = Root | Anywhere

  datatype Rule = Rule(category: DenyCategory, anchor: Anchor, run: seq<string>)

  datatype PrefixRule = PrefixRule(category: DenyCategory, prefix: string)

  /** The rule tables, and how a component is folded before it is compared. */
  datatype Table = Table(rules: seq<Rule>, prefixes: seq<PrefixRule>, fold: string -> string)

  const DATA_VOLUME_ALIAS: seq<string> := ["system", "volumes", "data"]

  function Folded(table: Table, p: Location): (keys: seq<string>) {
    seq(|p|, i requires 0 <= i < |p| => table.fold(p[i]))
  }

  predicate RunMatches(keys: seq<string>, run: seq<string>) {
    run <= keys
  }

  predicate Hits(rule: Rule, keys: seq<string>) {
    match rule.anchor
    case Root =>
      || RunMatches(keys, rule.run)
      || (RunMatches(keys, DATA_VOLUME_ALIAS) && RunMatches(keys[|DATA_VOLUME_ALIAS|..], rule.run))
    case Anywhere => exists i :: 0 <= i < |keys| && RunMatches(keys[i..], rule.run)
  }

  predicate HasPrefix(rule: PrefixRule, keys: seq<string>) {
    exists i :: 0 <= i < |keys| && rule.prefix <= keys[i]
  }

  function FirstHit(rules: seq<Rule>, keys: seq<string>): (r: Option<DenyCategory>) {
    if rules == [] then None
    else if Hits(rules[0], keys) then Some(rules[0].category)
    else FirstHit(rules[1..], keys)
  }

  function FirstPrefix(rules: seq<PrefixRule>, keys: seq<string>): (r: Option<DenyCategory>) {
    if rules == [] then None
    else if HasPrefix(rules[0], keys) then Some(rules[0].category)
    else FirstPrefix(rules[1..], keys)
  }

  /** Why the tables deny a location, if they do. */
  function MatchRules(table: Table, p: Location): (r: Option<DenyCategory>) {
    var keys := Folded(table, p);
    match FirstHit(table.rules, keys)
    case Some(c) => Some(c)
    case None => FirstPrefix(table.prefixes, keys)
  }

  lemma HitsBelow(rule: Rule, keys: seq<string>, more: seq<string>)
    requires keys <= more && Hits(rule, keys)
    ensures Hits(rule, more)
  {
    match rule.anchor
    case Root =>
      if RunMatches(keys, DATA_VOLUME_ALIAS) {
        assert keys[|DATA_VOLUME_ALIAS|..] <= more[|DATA_VOLUME_ALIAS|..];
      }
    case Anywhere =>
      var i :| 0 <= i < |keys| && RunMatches(keys[i..], rule.run);
      assert keys[i..] <= more[i..];
      assert RunMatches(more[i..], rule.run);
  }

  lemma {:induction false} FirstHitBelow(rules: seq<Rule>, keys: seq<string>, more: seq<string>)
    requires keys <= more && FirstHit(rules, keys).Some?
    ensures FirstHit(rules, more).Some?
    decreases |rules|
  {
    if Hits(rules[0], keys) {
      HitsBelow(rules[0], keys, more);
    } else {
      FirstHitBelow(rules[1..], keys, more);
    }
  }

  lemma {:induction false} FirstPrefixBelow(rules: seq<PrefixRule>, keys: seq<string>, more: seq<string>)
    requires keys <= more && FirstPrefix(rules, keys).Some?
    ensures FirstPrefix(rules, more).Some?
    decreases |rules|
  {
    if HasPrefix(rules[0], keys) {
      var i :| 0 <= i < |keys| && rules[0].prefix <= keys[i];
      assert keys[i] == more[i];
      assert HasPrefix(rules[0], more);
    } else {
      FirstPrefixBelow(rules[1..], keys, more);
    }
  }

  /** Whatever the tables and the folding, everything below a denied location is denied. */
  lemma DeniedBelow(table: Table, p: Location, q: Location)
    requires p <= q && MatchRules(table, p).Some?
    ensures MatchRules(table, q).Some?
  {
    assert Folded(table, p) <= Folded(table, q);
    if FirstHit(table.rules, Folded(table, p)).Some? {
      FirstHitBelow(table.rules, Folded(table, p), Folded(table, q));
    } else {
      FirstPrefixBelow(table.prefixes, Folded(table, p), Folded(table, q));
    }
  }

  // ----- What is protected, component by component ------------------------------------------------------------

  /** The run stands in the location from component `at` on, each component folded. */
  predicate StandsAt(table: Table, p: Location, at: nat, run: seq<string>) {
    at + |run| <= |p| && forall j :: 0 <= j < |run| ==> table.fold(p[at + j]) == run[j]
  }

  /** A rule names a location: from a component that is there, or from the first one, or right below the other
      name of the data volume. */
  ghost predicate NamedBy(table: Table, p: Location, rule: Rule) {
    match rule.anchor
    case Anywhere => exists at: nat :: at < |p| && StandsAt(table, p, at, rule.run)
    case Root =>
      || StandsAt(table, p, 0, rule.run)
      || (StandsAt(table, p, 0, ["system", "volumes", "data"]) && StandsAt(table, p, 3, rule.run))
  }

  predicate BeginsWith(key: string, prefix: string) {
    |prefix| <= |key| && forall j :: 0 <= j < |prefix| ==> key[j] == prefix[j]
  }

  ghost predicate PrefixNamedBy(table: Table, p: Location, rule: PrefixRule) {
    exists at: nat :: at < |p| && BeginsWith(table.fold(p[at]), rule.prefix)
  }

  /** Some rule names the location. */
  ghost predicate Protected(table: Table, p: Location) {
    || (exists r: nat :: r < |table.rules| && NamedBy(table, p, table.rules[r]))
    || (exists r: nat :: r < |table.prefixes| && PrefixNamedBy(table, p, table.prefixes[r]))
  }

  lemma RunStands(table: Table, p: Location, at: nat, run: seq<string>)
    requires at <= |p|
    ensures RunMatches(Folded(table, p)[at..], run) <==> StandsAt(table, p, at, run)
  {
    var keys := Folded(table, p);
    if RunMatches(keys[at..], run) {
      forall j | 0 <= j < |run| ensures table.fold(p[at + j]) == run[j] {
        assert keys[at + j] == keys[at..][j] == run[j];
      }
    }
    if StandsAt(table, p, at, run) {
      assert keys[at..][..|run|] == run;
    }
  }

  lemma HitsExactly(table: Table, p: Location, rule: Rule)
    ensures Hits(rule, Folded(table, p)) <==> NamedBy(table, p, rule)
  {
    var keys := Folded(table, p);
    match rule.anchor
    case Root =>
      assert keys[0..] == keys;
      RunStands(table, p, 0, rule.run);
      RunStands(table, p, 0, DATA_VOLUME_ALIAS);
      if |DATA_VOLUME_ALIAS| <= |p| {
        RunStands(table, p, |DATA_VOLUME_ALIAS|, rule.run);
      }
    case Anywhere =>
      forall at: nat | at < |p| ensures RunMatches(keys[at..], rule.run) <==> StandsAt(table, p, at, rule.run) {
        RunStands(table, p, at, rule.run);
      }
  }

  lemma HasPrefixExactly(table: Table, p: Location, rule: PrefixRule)
    ensures HasPrefix(rule, Folded(table, p)) <==> PrefixNamedBy(table, p, rule)
  {
    var keys := Folded(table, p);
    forall at: nat | at < |p| ensures rule.prefix <= keys[at] <==> BeginsWith(table.fold(p[at]), rule.prefix) {
      if BeginsWith(keys[at], rule.prefix) {
        assert keys[at][..|rule.prefix|] == rule.prefix;
      }
    }
  }

  ghost predicate FirstNaming(table: Table, p: Location, rules: seq<Rule>, r: nat) {
    r < |rules| && NamedBy(table, p, rules[r]) && forall q: nat :: q < r ==> !NamedBy(table, p, rules[q])
  }

  ghost predicate FirstPrefixNaming(table: Table, p: Location, rules: seq<PrefixRule>, r: nat) {
    r < |rules| && PrefixNamedBy(table, p, rules[r]) && forall q: nat :: q < r ==> !PrefixNamedBy(table, p, rules[q])
  }

  lemma {:induction false} FirstHitIs(table: Table, p: Location, rules: seq<Rule>)
    ensures match FirstHit(rules, Folded(table, p))
            case None => forall r: nat :: r < |rules| ==> !NamedBy(table, p, rules[r])
            case Some(c) => exists r: nat :: FirstNaming(table, p, rules, r) && rules[r].category == c
    decreases |rules|
  {
    if rules != [] {
      HitsExactly(table, p, rules[0]);
      var rest := rules[1..];
      FirstHitIs(table, p, rest);
      assert forall r: nat :: 0 < r < |rules| ==> rules[r] == rest[r - 1];
      if !Hits(rules[0], Folded(table, p)) && FirstHit(rest, Folded(table, p)).Some? {
        var r: nat :| FirstNaming(table, p, rest, r) && rest[r].category == FirstHit(rest, Folded(table, p)).value;
        assert FirstNaming(table, p, rules, r + 1);
      } else if Hits(rules[0], Folded(table, p)) {
        assert FirstNaming(table, p, rules, 0);
      }
    }
  }

  lemma {:induction false} FirstPrefixIs(table: Table, p: Location, rules: seq<PrefixRule>)
    ensures match FirstPrefix(rules, Folded(table, p))
            case None => forall r: nat :: r < |rules| ==> !PrefixNamedBy(table, p, rules[r])
            case Some(c) => exists r: nat :: FirstPrefixNaming(table, p, rules, r) && rules[r].category == c
    decreases |rules|
  {
    if rules != [] {
      HasPrefixExactly(table, p, rules[0]);
      var rest := rules[1..];
      FirstPrefixIs(table, p, rest);
      assert forall r: nat :: 0 < r < |rules| ==> rules[r] == rest[r - 1];
      if !HasPrefix(rules[0], Folded(table, p)) && FirstPrefix(rest, Folded(table, p)).Some? {
        var r: nat :| FirstPrefixNaming(table, p, rest, r) && rest[r].category == FirstPrefix(rest, Folded(table, p)).value;
        assert FirstPrefixNaming(table, p, rules, r + 1);
      } else if HasPrefix(rules[0], Folded(table, p)) {
        assert FirstPrefixNaming(table, p, rules, 0);
      }
    }
  }

  /** The tables deny a location exactly when some rule names it, and the reason they give is that of the first
      rule that does, the rules about prefixes after all others. */
  lemma DeniedExactly(table: Table, p: Location)
    ensures MatchRules(table, p).Some? <==> Protected(table, p)
    ensures forall r: nat :: FirstNaming(table, p, table.rules, r) ==> MatchRules(table, p) == Some(table.rules[r].category)
    ensures forall r: nat :: FirstPrefixNaming(table, p, table.prefixes, r)
                             && (forall q: nat :: q < |table.rules| ==> !NamedBy(table, p, table.rules[q])) ==>
                               MatchRules(table, p) == Some(table.prefixes[r].category)
  {
    FirstHitIs(table, p, table.rules);
    FirstPrefixIs(table, p, table.prefixes);
    forall r: nat | FirstNaming(table, p, table.rules, r) ensures MatchRules(table, p) == Some(table.rules[r].category) {
      var q: nat :| FirstNaming(table, p, table.rules, q) && Some(table.rules[q].category) == MatchRules(table, p);
      assert q == r;
    }
    forall r: nat | FirstPrefixNaming(table, p, table.prefixes, r)
                    && (forall q: nat :: q < |table.rules| ==> !NamedBy(table, p, table.rules[q]))
      ensures MatchRules(table, p) == Some(table.prefixes[r].category)
    {
      var q: nat :| FirstPrefixNaming(table, p, table.prefixes, q) && Some(table.prefixes[q].category) == MatchRules(table, p);
      assert q == r;
    }
  }

  const DOTENV_TEMPLATES: set<string> := {".env.example", ".env.sample", ".env.template", ".env.dist", ".env.defaults"}

  predicate IsDotenv(key: string) {
    (key == ".env" || key == ".envrc" || ".env." <= key) && key !in DOTENV_TEMPLATES
  }

  /** Strictly inside one of the project roots, component by folded component. */
  predicate InsideRoot(table: Table, p: Location, roots: seq<Location>) {
    exists i :: 0 <= i < |roots| && Folded(table, roots[i]) < Folded(table, p)
  }

  predicate DotenvDenied(table: Table, p: Location, roots: seq<Location>) {
    p != [] && IsDotenv(table.fold(p[|p| - 1])) && !InsideRoot(table, p, roots)
  }

  /** A location passes the tables and the rule about environment files. */
  predicate Passes(table: Table, roots: seq<Location>, p: Location) {
    MatchRules(table, p).None? && !DotenvDenied(table, p, roots)
  }

  // ----- The check ------------------------------------------------------------------------------------------------

  /** Where the project roots lead; one that does not resolve is dropped. */
  function RootsOf(fs: Location -> Entry, given: seq<seq<Comp>>): (roots: seq<Location>) {
    if given == [] then [] else
      var rest, last := RootsOf(fs, given[..|given| - 1]), WalkOf(fs, ANYWHERE, given[|given| - 1], MAX_SYMLINKS);
      match last
      case Err(_) => rest
      case Ok(w) => rest + [w.at]
  }

  method ResolveRoots(fs: Location -> Entry, given: seq<seq<Comp>>) returns (roots: seq<Location>)
    ensures roots == RootsOf(fs, given)
  {
    roots := [];
    assert given[..0] == [];
    for i := 0 to |given|
      invariant roots == RootsOf(fs, given[..i])
    {
      assert given[..i + 1][..i] == given[..i];
      var walked := Walk(fs, ANYWHERE, given[i], MAX_SYMLINKS);
      if walked.Ok? {
        roots := roots + [walked.value.at];
      }
    }
    assert given[..|given|] == given;
  }

  /** The roots are exactly the places the given paths lead to; a path that leads nowhere gives none. */
  lemma {:induction false} RootsAre(fs: Location -> Entry, given: seq<seq<Comp>>, p: Location)
    ensures p in RootsOf(fs, given) <==>
              exists i :: 0 <= i < |given| && Resolve(fs, ANYWHERE, [], given[i], MAX_SYMLINKS).Ok?
                          && Resolve(fs, ANYWHERE, [], given[i], MAX_SYMLINKS).value.at == p
    decreases |given|
  {
    if given != [] {
      var n := |given| - 1;
      RootsAre(fs, given[..n], p);
      assert forall i :: 0 <= i < n ==> given[..n][i] == given[i];
    }
  }

  /** The path resolves, and the path as written, the root and every location met pass. */
  ghost predicate Allowed(fs: Location -> Entry, table: Table, roots: seq<Location>, path: seq<Comp>) {
    && Resolve(fs, ANYWHERE, [], path, MAX_SYMLINKS).Ok?
    && Passes(table, roots, LexicalOf(path)) && Passes(table, roots, [])
    && forall v :: v in Visited(fs, [], path, MAX_SYMLINKS) ==> Passes(table, roots, v)
  }

  function Checker(table: Table, roots: seq<Location>): (ok: Location -> bool) {
    (p: Location) => Passes(table, roots, p)
  }

  lemma CheckerAsksPasses(table: Table, roots: seq<Location>, vs: set<Location>)
    ensures Checker(table, roots)([]) <==> Passes(table, roots, [])
    ensures (forall v :: v in vs ==> Checker(table, roots)(v)) <==> (forall v :: v in vs ==> Passes(table, roots, v))
  {
    forall v | v in vs ensures Checker(table, roots)(v) <==> Passes(table, roots, v) {
    }
  }

  lemma EndPasses(fs: Location -> Entry, ok: Location -> bool, path: seq<Comp>, links: nat)
    requires WalkOf(fs, ok, path, links).Ok?
    ensures ok(WalkOf(fs, ok, path, links).value.at)
  {
    RootIsSettled(fs, ok);
    ResolveSettles(fs, ok, [], path, links);
    var p := Resolve(fs, ok, [], path, links).value.at;
    assert p[..|p|] == p;
  }

  lemma AllowedExactly(fs: Location -> Entry, table: Table, roots: seq<Location>, path: seq<Comp>)
    ensures var ok := Checker(table, roots);
            var walked := WalkOf(fs, ok, path, MAX_SYMLINKS);
            && (Allowed(fs, table, roots, path) <==> ok(LexicalOf(path)) && walked.Ok?)
            && (walked.Ok? ==> walked == Resolve(fs, ANYWHERE, [], path, MAX_SYMLINKS) && ok(walked.value.at))
  {
    var ok := Checker(table, roots);
    var visited := Visited(fs, [], path, MAX_SYMLINKS);
    EveryVisitIsChecked(fs, ok, [], path, MAX_SYMLINKS);
    CheckerAsksPasses(table, roots, visited);
    if WalkOf(fs, ok, path, MAX_SYMLINKS).Ok? {
      EndPasses(fs, ok, path, MAX_SYMLINKS);
    }
  }

  /** What the whole check answers: the path as written is asked about first, then the walk. */
  function CheckOf(fs: Location -> Entry, table: Table, roots: seq<Location>, path: seq<Comp>)
    : (r: Result<Location, Trouble>)
  {
    if !Passes(table, roots, LexicalOf(path)) then Err(DeniedAt(LexicalOf(path))) else
      match WalkOf(fs, Checker(table, roots), path, MAX_SYMLINKS)
      case Err(e) => Err(e)
      case Ok(w) => Ok(w.at)
  }

  /** The answer is the place the path leads to exactly when everything on the way passes. */
  lemma CheckIsExact(fs: Location -> Entry, table: Table, roots: seq<Location>, path: seq<Comp>)
    ensures CheckOf(fs, table, roots, path).Ok? <==> Allowed(fs, table, roots, path)
    ensures CheckOf(fs, table, roots, path).Ok? ==>
              Resolve(fs, ANYWHERE, [], path, MAX_SYMLINKS).Ok?
              && CheckOf(fs, table, roots, path).value == Resolve(fs, ANYWHERE, [], path, MAX_SYMLINKS).value.at
  {
    AllowedExactly(fs, table, roots, path);
  }

  /** The whole check on an absolute path: the path as written, and every location it leads through. The
      code asks about the result once more; as the contract of the walk shows, that cannot fail. */
  method CheckPath(fs: Location -> Entry, table: Table, projectRoots: seq<seq<Comp>>, path: seq<Comp>)
    returns (r: Result<Location, Trouble>)
    ensures r == CheckOf(fs, table, RootsOf(fs, projectRoots), path)
    ensures r.Ok? <==>
              && Resolve(fs, ANYWHERE, [], path, MAX_SYMLINKS).Ok?
              && forall v :: LookedAt(fs, path, v) ==> !Protected(table, v) && !StrayEnv(table, RootsOf(fs, projectRoots), v)
  {
    var roots := ResolveRoots(fs, projectRoots);
    NothingProtectedIsPassed(fs, table, roots, path);
    var written := Lexical(path);
    if !Passes(table, roots, written) {
      return Err(DeniedAt(written));
    }
    var walked := Walk(fs, Checker(table, roots), path, MAX_SYMLINKS);
    if walked.Err? {
      return Err(walked.error);
    }
    return Ok(walked.value.at);
  }

  /** A name that begins with `.env` in the ways that hold secrets, and is not one of the templates. */
  predicate EnvName(key: string) {
    && (key == ".env" || key == ".envrc" || BeginsWith(key, ".env."))
    && key != ".env.example" && key != ".env.sample" && key != ".env.template" && key != ".env.dist" && key != ".env.defaults"
  }

  /** The location is properly below the root: longer, and component for component the same when folded. */
  predicate WithinRoot(table: Table, root: Location, p: Location) {
    |root| < |p| && forall j :: 0 <= j < |root| ==> table.fold(root[j]) == table.fold(p[j])
  }

  /** An environment file outside every project. */
  ghost predicate StrayEnv(table: Table, roots: seq<Location>, p: Location) {
    p != [] && EnvName(table.fold(p[|p| - 1])) && forall i: nat :: i < |roots| ==> !WithinRoot(table, roots[i], p)
  }

  lemma WithinExactly(table: Table, root: Location, p: Location)
    ensures Folded(table, root) < Folded(table, p) <==> WithinRoot(table, root, p)
  {
    if WithinRoot(table, root, p) {
      assert Folded(table, p)[..|root|] == Folded(table, root);
    }
    if Folded(table, root) < Folded(table, p) {
      forall j | 0 <= j < |root| ensures table.fold(root[j]) == table.fold(p[j]) {
        assert Folded(table, root)[j] == Folded(table, p)[j];
      }
    }
  }

  lemma EnvNameExactly(key: string)
    ensures IsDotenv(key) <==> EnvName(key)
  {
    if BeginsWith(key, ".env.") {
      assert key[..5] == ".env.";
    }
  }

  /** A location fails exactly when a rule names it or it is an environment file outside every project. */
  lemma PassesExactly(table: Table, roots: seq<Location>, p: Location)
    ensures Passes(table, roots, p) <==> !Protected(table, p) && !StrayEnv(table, roots, p)
  {
    DeniedExactly(table, p);
    forall i: nat | i < |roots| ensures Folded(table, roots[i]) < Folded(table, p) <==> WithinRoot(table, roots[i], p) {
      WithinExactly(table, roots[i], p);
    }
    if p != [] {
      EnvNameExactly(table.fold(p[|p| - 1]));
    }
  }

  /** The locations a check looks at: the path as written, the root, and every one the walk comes to. */
  ghost predicate LookedAt(fs: Location -> Entry, path: seq<Comp>, v: Location) {
    v == LexicalOf(path) || v == [] || v in Visited(fs, [], path, MAX_SYMLINKS)
  }

  /** The check answers with a place exactly when the path leads to one and nothing it looks at on the way is
      named by a rule or is an environment file outside every project. */
  lemma NothingProtectedIsPassed(fs: Location -> Entry, table: Table, roots: seq<Location>, path: seq<Comp>)
    ensures CheckOf(fs, table, roots, path).Ok? <==>
              && Resolve(fs, ANYWHERE, [], path, MAX_SYMLINKS).Ok?
              && forall v :: LookedAt(fs, path, v) ==> !Protected(table, v) && !StrayEnv(table, roots, v)
  {
    CheckIsExact(fs, table, roots, path);
    forall v ensures Passes(table, roots, v) <==> !Protected(table, v) && !StrayEnv(table, roots, v) {
      PassesExactly(table, roots, v);
    }
    assert LookedAt(fs, path, LexicalOf(path)) && LookedAt(fs, path, []);
    assert forall v :: v in Visited(fs, [], path, MAX_SYMLINKS) ==> LookedAt(fs, path, v);
  }

  /** What an allowed answer means for the path it gives: no link anywhere in it, it and everything above
      it pass, and checking it again gives it back. */
  lemma AllowedPathIsSafe(fs: Location -> Entry, table: Table, roots: seq<Location>, path: seq<Comp>)
    requires Allowed(fs, table, roots, path)
    ensures var p := Resolve(fs, ANYWHERE, [], path, MAX_SYMLINKS).value.at;
            && (forall i :: 0 < i <= |p| ==> !fs(p[..i]).Link? && !fs(p[..i]).Unreadable?)
            && (forall i :: 0 <= i <= |p| ==> Passes(table, roots, p[..i]))
            && Resolve(fs, ANYWHERE, [], Names(p), 0) == Ok(Walked(p, 0))
  {
    var ok := Checker(table, roots);
    EveryVisitIsChecked(fs, ok, [], path, MAX_SYMLINKS);
    RootIsSettled(fs, ok);
    ResolveSettles(fs, ok, [], path, MAX_SYMLINKS);
    var p := Resolve(fs, ANYWHERE, [], path, MAX_SYMLINKS).value.at;
    forall i | 0 <= i <= |p| ensures Passes(table, roots, p[..i]) {
      assert ok(p[..i]);
    }
    WalkIsIdempotent(fs, ANYWHERE, path, MAX_SYMLINKS, 0);
  }
}
