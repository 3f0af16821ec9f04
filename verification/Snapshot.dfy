/** Page snapshots (`agent-browser/src/snapshot.rs`): a bounded walk of whatever graph of nodes a page
    reports, giving refs `e1`, `e2`, ... to what can be acted on. */
module Snapshot {
  import opened Wrappers

  // ----- Cleaning page strings ---------------------------------------------------------------------------

  /** Which characters are controls and which are white space; a blank is white space and no control, the
      ellipsis is neither. */
  datatype Chars = Chars(control: char -> bool, space: char -> bool) {
    predicate Fine() {
      space(' ') && !control(' ') && !space(ELLIPSIS) && !control(ELLIPSIS)
    }
  }

  const ELLIPSIS: char := '\U{2026}'

  predicate BreaksLine(ch: char) {
    ch == '\n' || ch == '\t' || ch == '\r'
  }

  /** What the loop has put out after `s`. */
  function Squeezed(cs: Chars, s: string): (out: string) {
    if s == [] then [] else
      var out, ch := Squeezed(cs, s[..|s| - 1]), s[|s| - 1];
      var lastSpace := out == [] || out[|out| - 1] == ' ';
      if cs.control(ch) then (if BreaksLine(ch) && !lastSpace then out + " " else out)
      else if cs.space(ch) then (if lastSpace then out else out + " ")
      else out + [ch]
  }

  function Trimmed(s: string): (t: string) {
    if s != [] && s[|s| - 1] == ' ' then s[..|s| - 1] else s
  }

  function Cut(s: string, max: nat): (t: string) {
    if |s| > max then s[..if max == 0 then 0 else max - 1] + [ELLIPSIS] else s
  }

  function Cleaned(cs: Chars, s: string, max: nat): (t: string) {
    Cut(Trimmed(Squeezed(cs, s)), max)
  }

  /** Nothing but visible characters and single blanks between them. */
  predicate Neat(cs: Chars, s: string) {
    && (forall i :: 0 <= i < |s| ==> !cs.control(s[i]) && (cs.space(s[i]) ==> s[i] == ' '))
    && (forall i :: 0 <= i < |s| - 1 ==> !(s[i] == ' ' && s[i + 1] == ' '))
    && (s != [] ==> s[0] != ' ')
  }

  /** Strips controls, collapses white space and cuts. */
  method Clean(cs: Chars, s: string, max: nat) returns (t: string)
    requires cs.Fine()
    ensures t == Cleaned(cs, s, max)
    ensures Neat(cs, t) && (t != [] ==> t[|t| - 1] != ' ')
    ensures |t| <= if max == 0 then 1 else max
  {
    var out: string := [];
    var lastSpace := true;
    assert s[..0] == [];
    for i := 0 to |s|
      invariant out == Squeezed(cs, s[..i])
      invariant lastSpace <==> out == [] || out[|out| - 1] == ' '
    {
      assert s[..i + 1][..i] == s[..i];
      var ch := s[i];
      if cs.control(ch) {
        if BreaksLine(ch) && !lastSpace {
          out := out + " ";
          lastSpace := true;
        }
        continue;
      }
      if cs.space(ch) {
        if !lastSpace {
          out := out + " ";
          lastSpace := true;
        }
        continue;
      }
      out := out + [ch];
      lastSpace := false;
    }
    assert s[..|s|] == s;
    SqueezedIsNeat(cs, s);
    t := Cut(Trimmed(out), max);
  }

  lemma {:induction false} SqueezedIsNeat(cs: Chars, s: string)
    requires cs.Fine()
    ensures Neat(cs, Squeezed(cs, s))
    decreases |s|
  {
    if s != [] {
      SqueezedIsNeat(cs, s[..|s| - 1]);
    }
  }

  lemma {:induction false} NeatStays(cs: Chars, s: string)
    requires cs.Fine() && Neat(cs, s)
    ensures Squeezed(cs, s) == s
    decreases |s|
  {
    if s != [] {
      NeatStays(cs, s[..|s| - 1]);
    }
  }

  lemma CleanedIsNeat(cs: Chars, s: string, max: nat)
    requires cs.Fine()
    ensures Neat(cs, Cleaned(cs, s, max))
  {
    SqueezedIsNeat(cs, s);
  }

  lemma CleanedIsCut(cs: Chars, s: string, max: nat)
    requires cs.Fine()
    ensures var t := Cleaned(cs, s, max); Trimmed(t) == t && Cut(t, max) == t
  {
    SqueezedIsNeat(cs, s);
  }

  /** Cleaning what is clean changes nothing. */
  lemma CleanIsIdempotent(cs: Chars, s: string, max: nat)
    requires cs.Fine()
    ensures Cleaned(cs, Cleaned(cs, s, max), max) == Cleaned(cs, s, max)
  {
    CleanedIsNeat(cs, s, max);
    CleanedIsCut(cs, s, max);
    NeatStays(cs, Cleaned(cs, s, max));
  }

  /** White space, or a control that breaks the line: one word ends here. */
  predicate Separates(cs: Chars, ch: char) {
    if cs.control(ch) then ch == '\n' || ch == '\t' || ch == '\r' else cs.space(ch)
  }

  /** The words of a page string, other controls left out, and whether the last of them may go on. */
  datatype Parts = Parts(words: seq<string>, open: bool)

  function PartsOf(cs: Chars, s: string): (p: Parts)
    ensures p.open ==> p.words != []
  {
    if s == [] then Parts([], false) else
      var p, ch := PartsOf(cs, s[..|s| - 1]), s[|s| - 1];
      if Separates(cs, ch) then Parts(p.words, false)
      else if cs.control(ch) then p
      else if p.open then Parts(p.words[..|p.words| - 1] + [p.words[|p.words| - 1] + [ch]], true)
      else Parts(p.words + [[ch]], true)
  }

  /** Words with one blank between two. */
  function Spaced(words: seq<string>): (s: string) {
    if words == [] then "" else if |words| == 1 then words[0]
    else Spaced(words[..|words| - 1]) + " " + words[|words| - 1]
  }

  lemma SpacedLonger(words: seq<string>, ch: char)
    requires words != []
    ensures Spaced(words[..|words| - 1] + [words[|words| - 1] + [ch]]) == Spaced(words) + [ch]
  {
    var more := words[..|words| - 1] + [words[|words| - 1] + [ch]];
    assert more[..|more| - 1] == words[..|words| - 1];
  }

  lemma SpacedMore(words: seq<string>, ch: char)
    ensures Spaced(words + [[ch]]) == if words == [] then [ch] else Spaced(words) + " " + [ch]
  {
    assert (words + [[ch]])[..|words|] == words;
  }

  /** What has been put out are the words, and a blank once the last one has ended. */
  predicate PutOut(p: Parts, out: string) {
    && out == Spaced(p.words) + (if p.words != [] && !p.open then " " else "")
    && (p.words != [] ==> Spaced(p.words) != [] && Spaced(p.words)[|Spaced(p.words)| - 1] != ' ')
  }

  lemma PutOutLetter(p: Parts, out: string, ch: char)
    requires PutOut(p, out) && ch != ' ' && (p.open ==> p.words != [])
    ensures PutOut(if p.open then Parts(p.words[..|p.words| - 1] + [p.words[|p.words| - 1] + [ch]], true)
                   else Parts(p.words + [[ch]], true), out + [ch])
  {
    if p.open {
      SpacedLonger(p.words, ch);
    } else {
      SpacedMore(p.words, ch);
    }
  }

  lemma {:induction false} SqueezedIsWords(cs: Chars, s: string)
    requires cs.Fine()
    ensures PutOut(PartsOf(cs, s), Squeezed(cs, s))
    decreases |s|
  {
    if s != [] {
      var init, ch := s[..|s| - 1], s[|s| - 1];
      SqueezedIsWords(cs, init);
      if !Separates(cs, ch) && !cs.control(ch) {
        PutOutLetter(PartsOf(cs, init), Squeezed(cs, init), ch);
      }
    }
  }

  /** A cleaned string is its words with single blanks; one that is too long is cut to end in an ellipsis. */
  lemma CleanedIsWords(cs: Chars, s: string, max: nat)
    requires cs.Fine()
    ensures var whole := Spaced(PartsOf(cs, s).words);
            Cleaned(cs, s, max) ==
              if |whole| <= max then whole else whole[..if max == 0 then 0 else max - 1] + [ELLIPSIS]
  {
    SqueezedIsWords(cs, s);
  }

  // ----- Nodes --------------------------------------------------------------------------------------------

  datatype NodeId = NodeId(text: string)

  /** A reported node: `id` if it reports one that is a string, `isRoot` if it reports no parent. */
  datatype Node = Node(
    id: Option<NodeId>, isRoot: bool, children: seq<NodeId>, role: string, name: string, ignored: bool, backend: Option<int>,
    value: string, level: Option<string>, checked: bool, expanded: bool, selected: bool, disabled: bool)

  type Graph = map<NodeId, Node>

  datatype Limits = Limits(maxRefs: nat, maxChars: nat, maxNameChars: nat)

  const INTERACTIVE: set<string> := {
    "button", "link", "textbox", "searchbox", "checkbox", "radio", "combobox", "listbox", "option", "menuitem",
    "menuitemcheckbox", "menuitemradio", "tab", "switch", "slider", "spinbutton", "treeitem"}

  const STRUCTURAL: set<string> := {
    "generic", "none", "presentation", "LineBreak", "InlineTextBox", "Section", "group", "list", "listitem",
    "paragraph", "div", "LayoutTable", "LayoutTableRow", "LayoutTableCell", "Unknown"}

  predicate Flattened(n: Node) {
    n.ignored || n.role == "" || n.role in STRUCTURAL
  }

  predicate IsText(n: Node) {
    !Flattened(n) && n.role == "StaticText"
  }

  predicate IsPage(n: Node) {
    !Flattened(n) && (n.role == "RootWebArea" || n.role == "WebArea")
  }

  predicate IsInteractive(n: Node) {
    !Flattened(n) && !IsText(n) && !IsPage(n) && n.role in INTERACTIVE
  }

  /** The walk goes on to the children of everything but text. */
  predicate Expands(n: Node) {
    !IsText(n)
  }

  /** Can be acted on: gets a ref. */
  predicate Actionable(n: Node) {
    IsInteractive(n) && n.backend.Some?
  }

  /** A way from `root` through nodes whose children are walked. */
  predicate IsWay(g: Graph, root: NodeId, way: seq<NodeId>) {
    && way != [] && way[0] == root
    && forall i :: 0 <= i < |way| - 1 ==> way[i] in g && Expands(g[way[i]]) && way[i + 1] in g[way[i]].children
  }

  // The invariants are closed: a proof that only passes one on sees a quantifier that nothing instantiates
  // until `Inside` is mentioned.

  ghost predicate Inside<T>(x: T) {
    true
  }

  /** The root leads to `id`. */
  ghost predicate Reached(g: Graph, root: NodeId, id: NodeId) {
    forall x: NodeId {:trigger Inside(x)} :: x == id ==> exists way :: IsWay(g, root, way) && way[|way| - 1] == x
  }

  lemma ReachedBy(g: Graph, root: NodeId, way: seq<NodeId>)
    requires IsWay(g, root, way)
    ensures Reached(g, root, way[|way| - 1])
  {
  }

  lemma WayTo(g: Graph, root: NodeId, id: NodeId) returns (way: seq<NodeId>)
    requires Reached(g, root, id)
    ensures IsWay(g, root, way) && way[|way| - 1] == id
  {
    assert Inside(id);
    way :| IsWay(g, root, way) && way[|way| - 1] == id;
  }

  // ----- What a page looks like ---------------------------------------------------------------------------

  /** A page string as it is shown. */
  function Shown(cs: Chars, limits: Limits, s: string): (t: string) {
    Cleaned(cs, s, limits.maxNameChars)
  }

  predicate Visible(n: Node) {
    !n.ignored && n.role != "" && n.role !in STRUCTURAL
  }

  predicate PageItself(n: Node) {
    n.role == "RootWebArea" || n.role == "WebArea"
  }

  /** What is under the node is set in by one more: under a control, or under anything else that has a name. */
  predicate Nests(cs: Chars, limits: Limits, n: Node) {
    && Visible(n) && n.role != "StaticText" && !PageItself(n)
    && (n.role in INTERACTIVE || Shown(cs, limits, n.name) != "")
  }

  /** What a walk goes over, and how it shows it. */
  datatype Walker = Walker(g: Graph, cs: Chars, limits: Limits, root: NodeId)

  /** How deep the last node of a way is set in. */
  function DepthOf(w: Walker, way: seq<NodeId>): (n: nat) {
    if |way| <= 1 then 0 else
      DepthOf(w, way[..|way| - 1])
      + if way[|way| - 2] in w.g && Nests(w.cs, w.limits, w.g[way[|way| - 2]]) then 1 else 0
  }

  /** The name last shown above the last node of a way. */
  function NameAbove(w: Walker, way: seq<NodeId>): (name: string) {
    if |way| <= 1 then "" else
      var up := way[|way| - 2];
      if up in w.g && (Nests(w.cs, w.limits, w.g[up]) || (Visible(w.g[up]) && PageItself(w.g[up]))) then Shown(w.cs, w.limits, w.g[up].name)
      else NameAbove(w, way[..|way| - 1])
  }

  ghost predicate IsWayAs(
      w: Walker, id: NodeId, depth: nat, above: string, way: seq<NodeId>)
  {
    && IsWay(w.g, w.root, way) && way[|way| - 1] == id
    && DepthOf(w, way) == depth && NameAbove(w, way) == above
  }

  /** The root leads to `id` by a way that sets it in so deep, below that name. */
  ghost predicate ReachedAs(w: Walker, id: NodeId, depth: nat, above: string) {
    forall x: NodeId {:trigger Inside(x)} :: x == id ==> exists way :: IsWayAs(w, x, depth, above, way)
  }

  lemma WayAs(w: Walker, id: NodeId, depth: nat, above: string)
    returns (way: seq<NodeId>)
    requires ReachedAs(w, id, depth, above)
    ensures IsWayAs(w, id, depth, above, way) && Reached(w.g, w.root, id)
  {
    assert Inside(id);
    way :| IsWayAs(w, id, depth, above, way);
    ReachedBy(w.g, w.root, way);
  }

  ghost predicate ChildrenAs(w: Walker, children: seq<NodeId>, depth: nat, above: string) {
    forall x: seq<NodeId> {:trigger Inside(x)} :: x == children ==> forall k :: 0 <= k < |x| ==> ReachedAs(w, x[k], depth, above)
  }

  lemma ChildAs(w: Walker, children: seq<NodeId>, depth: nat, above: string, k: nat)
    requires ChildrenAs(w, children, depth, above) && k < |children|
    ensures ReachedAs(w, children[k], depth, above)
  {
    assert Inside(children);
  }

  lemma RootReachedAs(w: Walker)
    ensures ReachedAs(w, w.root, 0, "")
  {
    assert IsWayAs(w, w.root, 0, "", [w.root]);
  }

  /** How the children of a node are reached. */
  lemma ChildrenReachedAs(w: Walker, id: NodeId, depth: nat, above: string)
    requires ReachedAs(w, id, depth, above) && id in w.g && Expands(w.g[id])
    ensures var n := w.g[id];
            var named := Nests(w.cs, w.limits, n) || (Visible(n) && PageItself(n));
            ChildrenAs(w, n.children, depth + if Nests(w.cs, w.limits, n) then 1 else 0,
                       if named then Shown(w.cs, w.limits, n.name) else above)
  {
    var n := w.g[id];
    var way := WayAs(w, id, depth, above);
    forall k | 0 <= k < |n.children|
      ensures ReachedAs(w, n.children[k], depth + if Nests(w.cs, w.limits, n) then 1 else 0,
                        if Nests(w.cs, w.limits, n) || (Visible(n) && PageItself(n)) then Shown(w.cs, w.limits, n.name) else above)
    {
      var on := way + [n.children[k]];
      assert on[..|way|] == way;
      WayOn(w.g, w.root, way, n.children[k]);
      assert IsWayAs(w, n.children[k], DepthOf(w, on), NameAbove(w, on), on);
    }
  }

  /** What a control's line says beside its role and name. */
  datatype Notes = Notes(value: string, checked: string, expanded: string, selected: string, disabled: string)

  predicate NotesAre(n: Node, name: string, value: string, notes: Notes) {
    && notes.value == (if value == "" || value == name then "" else " value=\"" + value + "\"")
    && notes.checked == (if n.checked then " (checked)" else "")
    && notes.expanded == (if n.expanded then " (expanded)" else "")
    && notes.selected == (if n.selected then " (selected)" else "")
    && notes.disabled == (if n.disabled then " (disabled)" else "")
  }

  /** The body of the line of a node below the name `above`: text that says something new, the page, a control with
      its state, or anything else that has a name. */
  ghost predicate Says(cs: Chars, limits: Limits, n: Node, above: string, body: string) {
    var name, value := Shown(cs, limits, n.name), Shown(cs, limits, n.value);
    && Visible(n)
    && if n.role == "StaticText" then name != "" && name != above && body == "text \"" + name + "\""
       else if PageItself(n) then body == "page \"" + name + "\""
       else if n.role in INTERACTIVE then
         exists notes :: NotesAre(n, name, value, notes)
           && body == n.role + " \"" + name + "\""
                      + (notes.value + notes.checked + notes.expanded + notes.selected + notes.disabled)
       else
         && name != ""
         && body == (if n.role == "heading" && n.level.Some? then "heading[" + n.level.value + "]" else n.role)
                    + " \"" + name + "\""
  }

  /** The line is of this node: set in by two for each level, up to twelve, and saying what the node is. */
  ghost predicate LineOf(w: Walker, line: Line, id: NodeId) {
    id in w.g && exists depth: nat, above: string ::
      && ReachedAs(w, id, depth, above) && Says(w.cs, w.limits, w.g[id], above, line.body)
      && line.indent == 2 * (if depth > 12 then 12 else depth)
  }

  /** The lines are those of distinct nodes, with the ref of the node if that has one. */
  ghost predicate LinesSayParts(
      w: Walker, lines: seq<Line>, owners: seq<NodeId>, origins: seq<NodeId>)
  {
    && |owners| == |lines|
    && (forall i :: 0 <= i < |lines| ==> LineOf(w, lines[i], owners[i]))
    && (forall i, j :: 0 <= i < j < |owners| ==> owners[i] != owners[j])
    && (forall i :: 0 <= i < |lines| ==> TagRight(w.g, lines[i], owners[i], origins))
  }

  /** A line bears the number under which its node can be acted on, or none if it cannot. */
  predicate TagRight(g: Graph, line: Line, id: NodeId, origins: seq<NodeId>) {
    id in g && match line.ref
               case None => !Actionable(g[id])
               case Some(k) => 0 < k <= |origins| && origins[k - 1] == id
  }

  ghost predicate LinesSay(
      w: Walker, lines: seq<Line>, owners: seq<NodeId>, origins: seq<NodeId>,
      visited: set<NodeId>)
  {
    forall x: seq<Line> {:trigger Inside(x)} :: x == lines ==>
      LinesSayParts(w, x, owners, origins) && forall o :: o in owners ==> o in visited
  }

  lemma LinesSayMeans(
      w: Walker, lines: seq<Line>, owners: seq<NodeId>, origins: seq<NodeId>,
      visited: set<NodeId>)
    ensures LinesSay(w, lines, owners, origins, visited) <==>
            LinesSayParts(w, lines, owners, origins) && forall o :: o in owners ==> o in visited
  {
    assert Inside(lines);
  }

  lemma LinesSayWithMore(
      w: Walker, lines: seq<Line>, owners: seq<NodeId>, origins: seq<NodeId>,
      visited: set<NodeId>, more: set<NodeId>)
    requires LinesSay(w, lines, owners, origins, visited) && visited <= more
    ensures LinesSay(w, lines, owners, origins, more) && forall o :: o in owners ==> o in visited
  {
    LinesSayMeans(w, lines, owners, origins, visited);
    LinesSayMeans(w, lines, owners, origins, more);
  }

  /** One more line; `origins1` has one more ref if the line does. */
  lemma LinesSayWithNew(
      w: Walker, lines: seq<Line>, owners: seq<NodeId>, origins: seq<NodeId>,
      visited: set<NodeId>, line: Line, id: NodeId, origins1: seq<NodeId>)
    requires LinesSay(w, lines, owners, origins, visited) && id in visited && id !in owners
    requires LineOf(w, line, id) && origins <= origins1 && TagRight(w.g, line, id, origins1)
    ensures LinesSay(w, lines + [line], owners + [id], origins1, visited)
  {
    LinesSayMeans(w, lines, owners, origins, visited);
    LinesSayMeans(w, lines + [line], owners + [id], origins1, visited);
    forall i | 0 <= i < |lines| ensures TagRight(w.g, lines[i], owners[i], origins1) {
      assert TagRight(w.g, lines[i], owners[i], origins);
    }
    assert forall i :: 0 <= i < |lines| ==> LineOf(w, (lines + [line])[i], (owners + [id])[i]);
    assert forall i :: 0 <= i < |lines| ==> TagRight(w.g, (lines + [line])[i], (owners + [id])[i], origins1);
  }

  // ----- Lines and refs -----------------------------------------------------------------------------------

  /** One line: with the number of its ref, if it has one. */
  datatype Line = Line(indent: nat, ref: Option<nat>, body: string) {
    function Text(): (s: string) {
      (if ref.Some? then "[e" + Decimal(ref.value) + "] " else "") + body
    }

    function Cost(): (n: nat) {
      indent + |Text()| + 1
    }
  }

  function Decimal(n: nat): (s: string) {
    if n < 10 then [('0' as int + n) as char] else Decimal(n / 10) + [('0' as int + n % 10) as char]
  }

  datatype RefEntry = RefEntry(number: nat, role: string, name: string, backend: int, disabled: bool, value: string)

  function Costs(lines: seq<Line>): (n: nat) {
    if lines == [] then 0 else Costs(lines[..|lines| - 1]) + lines[|lines| - 1].Cost()
  }

  /** The numbers on the lines, in order. */
  function Numbers(lines: seq<Line>): (ns: seq<nat>) {
    if lines == [] then [] else
      var ns, last := Numbers(lines[..|lines| - 1]), lines[|lines| - 1];
      if last.ref.Some? then ns + [last.ref.value] else ns
  }

  /** `e1` to `ek`, once each. */
  predicate CountsUp(ns: seq<nat>, k: nat) {
    |ns| == k && forall i :: 0 <= i < k ==> ns[i] == i + 1
  }

  function Suffix(n: Node, name: string, value: string): (s: string) {
    (if value != "" && value != name then " value=\"" + value + "\"" else "")
    + (if n.checked then " (checked)" else "") + (if n.expanded then " (expanded)" else "")
    + (if n.selected then " (selected)" else "") + (if n.disabled then " (disabled)" else "")
  }

  function Label(n: Node): (s: string) {
    if n.role == "heading" && n.level.Some? then "heading[" + n.level.value + "]" else n.role
  }

  /** The node always has a line: the page, a control, and anything else but text that has a name. */
  predicate HasLine(cs: Chars, limits: Limits, n: Node) {
    Visible(n) && n.role != "StaticText" && (PageItself(n) || n.role in INTERACTIVE || Shown(cs, limits, n.name) != "")
  }

  /** Text without a line: it is blank, or says just what is shown above it. */
  ghost predicate NothingNew(w: Walker, id: NodeId)
    requires id in w.g
  {
    var name := Shown(w.cs, w.limits, w.g[id].name);
    name == "" || exists depth: nat :: ReachedAs(w, id, depth, name)
  }

  /** The node is done: its children were visited, it has its ref if it can be acted on, and its line. */
  ghost predicate Done(w: Walker, visited: set<NodeId>, origins: seq<NodeId>, owners: seq<NodeId>, id: NodeId) {
    id in w.g ==>
      && (Expands(w.g[id]) ==> forall c :: c in w.g[id].children ==> c in visited)
      && (Actionable(w.g[id]) ==> id in origins)
      && (HasLine(w.cs, w.limits, w.g[id]) ==> id in owners)
      && (Visible(w.g[id]) && w.g[id].role == "StaticText" ==> id in owners || NothingNew(w, id))
  }

  /** The lines so far: counted right, within the limit, and numbered up to `k`. */
  ghost predicate LinesFine(limits: Limits, lines: seq<Line>, chars: nat, k: nat) {
    forall x: seq<Line> {:trigger Inside(x)} :: x == lines ==>
      chars == Costs(x) <= limits.maxChars && CountsUp(Numbers(x), k)
  }

  lemma LinesFineMeans(limits: Limits, lines: seq<Line>, chars: nat, k: nat)
    ensures LinesFine(limits, lines, chars, k) <==>
            chars == Costs(lines) <= limits.maxChars && CountsUp(Numbers(lines), k)
  {
    assert Inside(lines);
  }

  /** One more line that fits. */
  lemma LinesFineWith(limits: Limits, lines: seq<Line>, chars: nat, k: nat, line: Line)
    requires LinesFine(limits, lines, chars, k) && chars + line.Cost() <= limits.maxChars
    requires line.ref.Some? ==> line.ref.value == k + 1
    ensures LinesFine(limits, lines + [line], chars + line.Cost(), if line.ref.Some? then k + 1 else k)
  {
    LinesFineMeans(limits, lines, chars, k);
    LineAdded(lines, line);
    LinesFineMeans(limits, lines + [line], chars + line.Cost(), if line.ref.Some? then k + 1 else k);
  }

  /** The `i`-th ref is of a visited node that can be acted on. */
  predicate RefFine(g: Graph, r: RefEntry, i: nat, origin: NodeId, visited: set<NodeId>) {
    && r.number == i + 1 && origin in visited && origin in g && Actionable(g[origin])
    && r.backend == g[origin].backend.value && r.role == g[origin].role && r.disabled == g[origin].disabled
  }

  /** The refs say what their nodes are called and hold. */
  ghost predicate RefsSay(g: Graph, cs: Chars, limits: Limits, refs: seq<RefEntry>, origins: seq<NodeId>) {
    forall x: seq<RefEntry> {:trigger Inside(x)} :: x == refs ==>
      |origins| == |x| && forall i :: 0 <= i < |x| ==> RefSays(g, cs, limits, x[i], origins[i])
  }

  predicate RefSays(g: Graph, cs: Chars, limits: Limits, r: RefEntry, id: NodeId) {
    id in g && r.name == Shown(cs, limits, g[id].name) && r.value == Shown(cs, limits, g[id].value)
  }

  lemma RefsSayMeans(g: Graph, cs: Chars, limits: Limits, refs: seq<RefEntry>, origins: seq<NodeId>)
    ensures RefsSay(g, cs, limits, refs, origins) <==>
            |origins| == |refs| && forall i :: 0 <= i < |refs| ==> RefSays(g, cs, limits, refs[i], origins[i])
  {
    assert Inside(refs);
  }

  lemma RefsSayWithNew(
      g: Graph, cs: Chars, limits: Limits, refs: seq<RefEntry>, origins: seq<NodeId>, r: RefEntry, id: NodeId)
    requires RefsSay(g, cs, limits, refs, origins) && RefSays(g, cs, limits, r, id)
    ensures RefsSay(g, cs, limits, refs + [r], origins + [id])
  {
    RefsSayMeans(g, cs, limits, refs, origins);
    RefsSayMeans(g, cs, limits, refs + [r], origins + [id]);
  }

  /** The refs so far: within the limit, one node each. */
  ghost predicate RefsFine(g: Graph, limits: Limits, refs: seq<RefEntry>, origins: seq<NodeId>, visited: set<NodeId>) {
    forall x: seq<RefEntry> {:trigger Inside(x)} :: x == refs ==> RefsFineParts(g, limits, x, origins, visited)
  }

  ghost predicate RefsFineParts(g: Graph, limits: Limits, refs: seq<RefEntry>, origins: seq<NodeId>, visited: set<NodeId>) {
    && |origins| == |refs| <= limits.maxRefs
    && (forall i :: 0 <= i < |refs| ==> RefFine(g, refs[i], i, origins[i], visited))
    && (forall i, j :: 0 <= i < j < |origins| ==> origins[i] != origins[j])
  }

  lemma RefsFineMeans(g: Graph, limits: Limits, refs: seq<RefEntry>, origins: seq<NodeId>, visited: set<NodeId>)
    ensures RefsFine(g, limits, refs, origins, visited) <==> RefsFineParts(g, limits, refs, origins, visited)
  {
    assert Inside(refs);
  }

  lemma RefsFineWithMore(
      g: Graph, limits: Limits, refs: seq<RefEntry>, origins: seq<NodeId>, visited: set<NodeId>, more: set<NodeId>)
    requires RefsFine(g, limits, refs, origins, visited) && visited <= more
    ensures RefsFine(g, limits, refs, origins, more)
    ensures |refs| == |origins| <= limits.maxRefs && forall o :: o in origins ==> o in visited
  {
    RefsFineMeans(g, limits, refs, origins, visited);
    RefsFineMeans(g, limits, refs, origins, more);
    forall i | 0 <= i < |refs| ensures RefFine(g, refs[i], i, origins[i], more) && origins[i] in visited {
      assert RefFine(g, refs[i], i, origins[i], visited);
    }
  }

  lemma RefsFineWithNew(
      g: Graph, limits: Limits, refs: seq<RefEntry>, origins: seq<NodeId>, visited: set<NodeId>, r: RefEntry, id: NodeId)
    requires RefsFine(g, limits, refs, origins, visited) && |refs| < limits.maxRefs && id !in origins
    requires RefFine(g, r, |refs|, id, visited)
    ensures RefsFine(g, limits, refs + [r], origins + [id], visited)
  {
    RefsFineMeans(g, limits, refs, origins, visited);
    RefsFineMeans(g, limits, refs + [r], origins + [id], visited);
    forall i | 0 <= i < |refs + [r]| ensures RefFine(g, (refs + [r])[i], i, (origins + [id])[i], visited) {
      if i < |refs| {
        assert RefFine(g, refs[i], i, origins[i], visited);
      }
    }
  }

  ghost predicate AllReached(g: Graph, root: NodeId, ids: set<NodeId>) {
    forall x: set<NodeId> {:trigger Inside(x)} :: x == ids ==> forall v :: v in x ==> Reached(g, root, v)
  }

  lemma OneMoreReached(g: Graph, root: NodeId, ids: set<NodeId>, id: NodeId)
    requires AllReached(g, root, ids) && Reached(g, root, id)
    ensures AllReached(g, root, ids + {id})
  {
    assert Inside(ids);
  }

  ghost predicate AllDone(w: Walker, visited: set<NodeId>, origins: seq<NodeId>, owners: seq<NodeId>, ids: set<NodeId>) {
    forall x: set<NodeId> {:trigger Inside(x)} :: x == ids ==> forall v :: v in x ==> Done(w, visited, origins, owners, v)
  }

  lemma NothingToDo(w: Walker, visited: set<NodeId>, origins: seq<NodeId>, owners: seq<NodeId>)
    ensures AllDone(w, visited, origins, owners, visited - visited)
  {
  }

  /** What was done stays done when more is visited. */
  lemma DoneAlso(
      w: Walker, visited0: set<NodeId>, visited1: set<NodeId>, origins1: seq<NodeId>, owners1: seq<NodeId>,
      visited2: set<NodeId>, origins2: seq<NodeId>, owners2: seq<NodeId>)
    requires visited0 <= visited1 <= visited2 && origins1 <= origins2 && owners1 <= owners2
    requires AllDone(w, visited1, origins1, owners1, visited1 - visited0)
    requires AllDone(w, visited2, origins2, owners2, visited2 - visited1)
    ensures AllDone(w, visited2, origins2, owners2, visited2 - visited0)
  {
    assert Inside(visited1 - visited0) && Inside(visited2 - visited1);
    forall v | v in visited2 - visited0 ensures Done(w, visited2, origins2, owners2, v) {
      if v in visited1 {
        assert Done(w, visited1, origins1, owners1, v);
      } else {
        assert Done(w, visited2, origins2, owners2, v);
      }
    }
  }

  lemma DoneWithSelf(
      w: Walker, visited0: set<NodeId>, id: NodeId, visited: set<NodeId>, origins: seq<NodeId>, owners: seq<NodeId>)
    requires visited0 + {id} <= visited && AllDone(w, visited, origins, owners, visited - (visited0 + {id}))
    requires Done(w, visited, origins, owners, id)
    ensures AllDone(w, visited, origins, owners, visited - visited0)
  {
    assert Inside(visited - (visited0 + {id}));
    forall v | v in visited - visited0 ensures Done(w, visited, origins, owners, v) {
    }
  }

  /** The first of these children have been visited. */
  ghost predicate Visited(children: seq<NodeId>, n: nat, visited: set<NodeId>) {
    forall x: seq<NodeId> {:trigger Inside(x)} :: x == children ==> n <= |x| && forall j :: 0 <= j < n ==> x[j] in visited
  }

  lemma NoneVisited(children: seq<NodeId>, visited: set<NodeId>)
    ensures Visited(children, 0, visited)
  {
  }

  lemma OneMoreVisited(children: seq<NodeId>, n: nat, visited: set<NodeId>, more: set<NodeId>)
    requires Visited(children, n, visited) && visited <= more && n < |children| && children[n] in more
    ensures Visited(children, n + 1, more)
  {
    assert Inside(children);
  }

  lemma AllVisited(children: seq<NodeId>, visited: set<NodeId>)
    requires Visited(children, |children|, visited)
    ensures forall c :: c in children ==> c in visited
  {
    assert Inside(children);
  }

  class Builder {
    const g: Graph
    const cs: Chars
    const limits: Limits
    var lines: seq<Line>
    var chars: nat
    var refs: seq<RefEntry>
    var truncated: bool
    var visited: set<NodeId>
    /** The node each ref stands for, and the node each line is of. */
    ghost var origins: seq<NodeId>
    ghost var owners: seq<NodeId>

    constructor (g: Graph, cs: Chars, limits: Limits)
      requires cs.Fine()
      ensures Valid() && this.g == g && this.cs == cs && this.limits == limits
      ensures lines == [] && refs == [] && !truncated && visited == {} && origins == [] && owners == []
    {
      this.g, this.cs, this.limits := g, cs, limits;
      lines, chars, refs, truncated, visited, origins, owners := [], 0, [], false, {}, [], [];
      new;
      LinesFineMeans(limits, [], 0, 0);
      RefsFineMeans(g, limits, [], [], {});
      RefsSayMeans(g, cs, limits, [], []);
    }

    ghost predicate Valid()
      reads this
    {
      && cs.Fine() && LinesFine(limits, lines, chars, |refs|)
      && RefsFine(g, limits, refs, origins, visited) && RefsSay(g, cs, limits, refs, origins)
    }

    ghost function From(root: NodeId): (w: Walker) {
      Walker(g, cs, limits, root)
    }

    /** All that was come to, and every line, is of nodes the root leads to. */
    ghost predicate Follows(root: NodeId)
      reads this
    {
      AllReached(g, root, visited) && LinesSay(From(root), lines, owners, origins, visited)
    }

    /** Adds a line if it still fits; otherwise the snapshot is truncated. */
    method PushLine(depth: nat, ref: Option<nat>, body: string) returns (ok: bool)
      modifies `lines, `chars, `truncated
      ensures ok <==> old(chars) + Line(Indent(depth), ref, body).Cost() <= limits.maxChars
      ensures ok ==> lines == old(lines) + [Line(Indent(depth), ref, body)] && truncated == old(truncated)
      ensures ok ==> chars == old(chars) + Line(Indent(depth), ref, body).Cost()
      ensures !ok ==> truncated && lines == old(lines) && chars == old(chars)
    {
      var line := Line(Indent(depth), ref, body);
      if chars + line.Cost() > limits.maxChars {
        truncated := true;
        return false;
      }
      chars := chars + line.Cost();
      lines := lines + [line];
      return true;
    }

    /** A line without a ref. */
    method PushPlain(depth: nat, body: string, ghost id: NodeId, ghost above: string, ghost root: NodeId) returns (ok: bool)
      requires Valid() && Follows(root) && id in visited && id !in owners && id in g && !Actionable(g[id])
      requires ReachedAs(From(root), id, depth, above) && Says(cs, limits, g[id], above, body)
      modifies `lines, `chars, `truncated, `owners
      ensures Valid() && (old(truncated) ==> truncated) && (!ok ==> truncated) && (ok ==> truncated == old(truncated))
      ensures Follows(root) && old(owners) <= owners && (ok ==> id in owners)
    {
      ghost var lines0, chars0 := lines, chars;
      ok := PushLine(depth, None, body);
      if ok {
        ghost var line := Line(Indent(depth), None, body);
        LinesFineWith(limits, lines0, chars0, |refs|, line);
        LineIsOf(From(root), line, id, depth, above);
        LinesSayWithNew(From(root), lines0, owners, origins, visited, line, id, origins);
        owners := owners + [id];
      }
    }

    /** The line of something that can be used, with its ref if it has a backend node. */
    method PushInteractive(id: NodeId, depth: nat, name: string, ghost above: string, ghost root: NodeId) returns (ok: bool)
      requires Valid() && Follows(root) && id in g && IsInteractive(g[id])
      requires id in visited && id !in origins && id !in owners
      requires ReachedAs(From(root), id, depth, above) && name == Shown(cs, limits, g[id].name)
      modifies `lines, `chars, `truncated, `refs, `origins, `owners
      ensures Valid() && (old(truncated) ==> truncated) && (!ok ==> truncated) && (ok ==> truncated == old(truncated))
      ensures old(origins) <= origins && (ok && Actionable(g[id]) ==> id in origins)
      ensures Follows(root) && old(owners) <= owners && (ok ==> id in owners)
    {
      var n := g[id];
      var value := Clean(cs, n.value, limits.maxNameChars);
      var body := n.role + " \"" + name + "\"" + Suffix(n, name, value);
      SuffixSays(cs, limits, n, above);
      if n.backend.None? {
        ok := PushPlain(depth, body, id, above, root);
        return;
      }
      if |refs| >= limits.maxRefs {
        truncated := true;
        return false;
      }
      LineIsOf(From(root), Line(Indent(depth), Some(|refs| + 1), body), id, depth, above);
      ok := PushTagged(id, depth, name, value, body, root);
    }

    /** The line with the next ref, and then the ref. */
    method PushTagged(id: NodeId, depth: nat, name: string, value: string, body: string, ghost root: NodeId)
      returns (ok: bool)
      requires Valid() && Follows(root) && |refs| < limits.maxRefs && id in g && Actionable(g[id])
      requires id in visited && id !in origins && id !in owners
      requires LineOf(From(root), Line(Indent(depth), Some(|refs| + 1), body), id)
      requires name == Shown(cs, limits, g[id].name) && value == Shown(cs, limits, g[id].value)
      modifies `lines, `chars, `truncated, `refs, `origins, `owners
      ensures Valid() && (old(truncated) ==> truncated) && (!ok ==> truncated) && (ok ==> truncated == old(truncated))
      ensures old(origins) <= origins && (ok ==> id in origins)
      ensures Follows(root) && old(owners) <= owners && (ok ==> id in owners)
    {
      var n, number := g[id], |refs| + 1;
      ghost var lines0, chars0, line := lines, chars, Line(Indent(depth), Some(number), body);
      ok := PushLine(depth, Some(number), body);
      if ok {
        assert lines == lines0 + [line] && chars == chars0 + line.Cost();
        var r := RefEntry(number, n.role, name, n.backend.value, n.disabled, value);
        TaggedIsFine(From(root), lines0, chars0, refs, origins, owners, visited, line, r, id);
        refs, origins, owners := refs + [r], origins + [id], owners + [id];
      }
    }

    /** Walks a node, unless it was visited before. */
    method Walk(id: NodeId, depth: nat, parentName: string, ghost root: NodeId)
      requires Valid() && ReachedAs(From(root), id, depth, parentName) && Follows(root)
      modifies `lines, `chars, `truncated, `refs, `origins, `owners, `visited
      ensures Valid() && old(visited) <= visited && old(origins) <= origins && (old(truncated) ==> truncated)
      ensures Follows(root) && old(owners) <= owners
      ensures !truncated ==> id in visited && AllDone(From(root), visited, origins, owners, visited - old(visited))
      decreases |g.Keys - visited|, 2
    {
      NothingToDo(From(root), visited, origins, owners);
      if truncated || id in visited {
        return;
      }
      ghost var visited0 := visited;
      RefsFineWithMore(g, limits, refs, origins, visited, visited + {id});
      LinesSayWithMore(From(root), lines, owners, origins, visited, visited + {id});
      visited := visited + {id};
      ghost var way := WayAs(From(root), id, depth, parentName);
      OneMoreReached(g, root, visited0, id);
      if id in g {
        OneFewerLeft(g.Keys, visited0, id);
        Enter(id, depth, parentName, root);
        if !truncated {
          DoneWithSelf(From(root), visited0, id, visited, origins, owners);
        }
      } else {
        NothingToDo(From(root), visited, origins, owners);
        DoneWithSelf(From(root), visited0, id, visited, origins, owners);
      }
    }

    /** The node's own line and then its children, as its role says. */
    method Enter(id: NodeId, depth: nat, parentName: string, ghost root: NodeId)
      requires Valid() && ReachedAs(From(root), id, depth, parentName) && Follows(root)
      requires id in g && id in visited && id !in origins && id !in owners
      modifies `lines, `chars, `truncated, `refs, `origins, `owners, `visited
      ensures Valid() && old(visited) <= visited && old(origins) <= origins && (old(truncated) ==> truncated)
      ensures Follows(root) && old(owners) <= owners
      ensures !truncated ==> Done(From(root), visited, origins, owners, id)
      ensures !truncated ==> AllDone(From(root), visited, origins, owners, visited - old(visited))
      decreases |g.Keys - visited|, 5
    {
      NothingToDo(From(root), visited, origins, owners);
      if Expands(g[id]) {
        ChildrenReachedAs(From(root), id, depth, parentName);
      }
      var n := g[id];
      var name := Clean(cs, n.name, limits.maxNameChars);
      if Flattened(n) {
        WalkChildren(n.children, depth, parentName, root);
      } else if n.role == "StaticText" {
        if name != "" && name != parentName {
          var ok := PushPlain(depth, "text \"" + name + "\"", id, parentName, root);
        }
      } else if n.role == "RootWebArea" || n.role == "WebArea" {
        var ok := PushPlain(depth, "page \"" + name + "\"", id, parentName, root);
        if ok {
          WalkChildren(n.children, depth, name, root);
        }
      } else if n.role in INTERACTIVE {
        var ok := PushInteractive(id, depth, name, parentName, root);
        if ok {
          WalkChildren(n.children, depth + 1, name, root);
        }
      } else if name == "" {
        WalkChildren(n.children, depth, parentName, root);
      } else {
        var ok := PushPlain(depth, Label(n) + " \"" + name + "\"", id, parentName, root);
        if ok {
          WalkChildren(n.children, depth + 1, name, root);
        }
      }
      if !truncated && Expands(n) {
        AllVisited(n.children, visited);
      }
    }

    /** Where a walk of some children stands: nothing is lost, and all it came to is done unless truncated. */
    ghost predicate WalkedOn(root: NodeId, visited0: set<NodeId>, origins0: seq<NodeId>, owners0: seq<NodeId>)
      reads this
    {
      && Valid() && visited0 <= visited && origins0 <= origins && owners0 <= owners && Follows(root)
      && (!truncated ==> AllDone(From(root), visited, origins, owners, visited - visited0))
    }

    /** One child; `visited0`, `origins0` and `owners0` are from before the first of them. */
    method WalkChild(child: NodeId, depth: nat, parentName: string, ghost root: NodeId,
                     ghost visited0: set<NodeId>, ghost origins0: seq<NodeId>, ghost owners0: seq<NodeId>)
      requires WalkedOn(root, visited0, origins0, owners0) && ReachedAs(From(root), child, depth, parentName)
      modifies `lines, `chars, `truncated, `refs, `origins, `owners, `visited
      ensures WalkedOn(root, visited0, origins0, owners0) && old(visited) <= visited
      ensures !truncated ==> !old(truncated) && child in visited
      decreases |g.Keys - visited|, 3
    {
      ghost var visited1, origins1, owners1 := visited, origins, owners;
      Walk(child, depth, parentName, root);
      if !truncated {
        DoneAlso(From(root), visited0, visited1, origins1, owners1, visited, origins, owners);
      }
    }

    method WalkChildren(children: seq<NodeId>, depth: nat, parentName: string, ghost root: NodeId)
      requires Valid() && Follows(root)
      requires ChildrenAs(From(root), children, depth, parentName)
      modifies `lines, `chars, `truncated, `refs, `origins, `owners, `visited
      ensures WalkedOn(root, old(visited), old(origins), old(owners)) && (old(truncated) ==> truncated)
      ensures !truncated ==> Visited(children, |children|, visited)
      decreases |g.Keys - visited|, 4
    {
      ghost var visited0, origins0, owners0 := visited, origins, owners;
      NothingToDo(From(root), visited, origins, owners);
      NoneVisited(children, visited);
      for i := 0 to |children|
        invariant WalkedOn(root, visited0, origins0, owners0) && (old(truncated) ==> truncated)
        invariant !truncated ==> Visited(children, i, visited)
      {
        ghost var visited1 := visited;
        FewerLeft(g.Keys, visited0, visited);
        ChildAs(From(root), children, depth, parentName, i);
        WalkChild(children[i], depth, parentName, root, visited0, origins0, owners0);
        if !truncated {
          OneMoreVisited(children, i, visited1, visited);
        }
      }
    }
  }

  /** A line with the next ref, and that ref. */
  lemma TaggedIsFine(
      w: Walker, lines: seq<Line>, chars: nat, refs: seq<RefEntry>, origins: seq<NodeId>, owners: seq<NodeId>,
      visited: set<NodeId>, line: Line, r: RefEntry, id: NodeId)
    requires LinesFine(w.limits, lines, chars, |refs|) && chars + line.Cost() <= w.limits.maxChars
    requires RefsFine(w.g, w.limits, refs, origins, visited) && RefsSay(w.g, w.cs, w.limits, refs, origins)
    requires LinesSay(w, lines, owners, origins, visited)
    requires |refs| < w.limits.maxRefs && line.ref == Some(|refs| + 1) && id in visited && id !in origins && id !in owners
    requires RefFine(w.g, r, |refs|, id, visited) && RefSays(w.g, w.cs, w.limits, r, id) && LineOf(w, line, id)
    ensures LinesFine(w.limits, lines + [line], chars + line.Cost(), |refs| + 1)
    ensures RefsFine(w.g, w.limits, refs + [r], origins + [id], visited)
    ensures RefsSay(w.g, w.cs, w.limits, refs + [r], origins + [id])
    ensures LinesSay(w, lines + [line], owners + [id], origins + [id], visited)
  {
    LinesFineWith(w.limits, lines, chars, |refs|, line);
    RefsFineWithMore(w.g, w.limits, refs, origins, visited, visited);
    RefsFineWithNew(w.g, w.limits, refs, origins, visited, r, id);
    RefsSayWithNew(w.g, w.cs, w.limits, refs, origins, r, id);
    LinesSayWithNew(w, lines, owners, origins, visited, line, id, origins + [id]);
  }

  lemma LineIsOf(w: Walker, line: Line, id: NodeId, depth: nat, above: string)
    requires id in w.g && ReachedAs(w, id, depth, above) && Says(w.cs, w.limits, w.g[id], above, line.body)
    requires line.indent == Indent(depth)
    ensures LineOf(w, line, id)
  {
  }

  /** The notes on a control's line are those of its state. */
  lemma SuffixSays(cs: Chars, limits: Limits, n: Node, above: string)
    requires IsInteractive(n)
    ensures var name, value := Shown(cs, limits, n.name), Shown(cs, limits, n.value);
            Says(cs, limits, n, above, n.role + " \"" + name + "\"" + Suffix(n, name, value))
  {
    var name, value := Shown(cs, limits, n.name), Shown(cs, limits, n.value);
    var notes := Notes(
      if value == "" || value == name then "" else " value=\"" + value + "\"",
      if n.checked then " (checked)" else "", if n.expanded then " (expanded)" else "",
      if n.selected then " (selected)" else "", if n.disabled then " (disabled)" else "");
    assert NotesAre(n, name, value, notes);
  }

  function Indent(depth: nat): (n: nat) {
    (if depth < 12 then depth else 12) * 2
  }

  lemma LineAdded(lines: seq<Line>, line: Line)
    ensures Costs(lines + [line]) == Costs(lines) + line.Cost()
    ensures Numbers(lines + [line]) == Numbers(lines) + if line.ref.Some? then [line.ref.value] else []
  {
    assert (lines + [line])[..|lines|] == lines;
  }

  lemma FewerLeft(all: set<NodeId>, a: set<NodeId>, b: set<NodeId>)
    requires a <= b
    ensures |all - b| <= |all - a|
  {
    assert all - a == (all - b) + (all * (b - a));
    assert |all - a| == |all - b| + |all * (b - a)|;
  }

  lemma OneFewerLeft(all: set<NodeId>, a: set<NodeId>, id: NodeId)
    requires id in all && id !in a
    ensures |all - (a + {id})| < |all - a|
  {
    assert all - (a + {id}) == (all - a) - {id};
  }

  lemma WayOn(g: Graph, root: NodeId, way: seq<NodeId>, child: NodeId)
    requires IsWay(g, root, way) && way[|way| - 1] in g && Expands(g[way[|way| - 1]]) && child in g[way[|way| - 1]].children
    ensures IsWay(g, root, way + [child])
  {
  }

  /** What is closed under the walk holds everything the root leads to. */
  lemma {:induction false} ClosedHoldsReached(
      w: Walker, visited: set<NodeId>, origins: seq<NodeId>, owners: seq<NodeId>, way: seq<NodeId>)
    requires w.root in visited && (forall v :: v in visited ==> Done(w, visited, origins, owners, v)) && IsWay(w.g, w.root, way)
    ensures way[|way| - 1] in visited
    decreases |way|
  {
    if |way| > 1 {
      var init := way[..|way| - 1];
      ClosedHoldsReached(w, visited, origins, owners, init);
      var last := init[|init| - 1];
      assert last == way[|way| - 2] && way[|way| - 1] in w.g[last].children;
      assert Done(w, visited, origins, owners, last);
    }
  }

  // ----- The snapshot -------------------------------------------------------------------------------------------

  /** `summary` is the note that the snapshot is not complete. */
  datatype Built = Built(lines: seq<Line>, refs: seq<RefEntry>, truncated: bool, summary: bool)

  const NOTHING := Line(0, None, "(the page is empty)")

  /** The ref stands for a node the root leads to that can be acted on, and says what it is. */
  ghost predicate OriginFine(w: Walker, r: RefEntry, i: nat, origin: NodeId) {
    && origin in w.g && Actionable(w.g[origin]) && Reached(w.g, w.root, origin)
    && r == RefEntry(i + 1, w.g[origin].role, Shown(w.cs, w.limits, w.g[origin].name), w.g[origin].backend.value,
                     w.g[origin].disabled, Shown(w.cs, w.limits, w.g[origin].value))
  }

  /** The refs of a snapshot: within the limits, numbered on one line each, of distinct nodes the root leads
      to that can be acted on. */
  ghost predicate RefsRight(w: Walker, b: Built, origins: seq<NodeId>) {
    && |origins| == |b.refs| <= w.limits.maxRefs
    && CountsUp(Numbers(b.lines), |b.refs|)
    && (forall i, j :: 0 <= i < j < |origins| ==> origins[i] != origins[j])
    && (forall i :: 0 <= i < |origins| ==> OriginFine(w, b.refs[i], i, origins[i]))
  }

  /** The lines of a snapshot are those of distinct nodes the root leads to; a page without any says so. */
  ghost predicate LinesRight(w: Walker, b: Built, owners: seq<NodeId>, origins: seq<NodeId>) {
    if owners == [] then b.lines == [NOTHING] else LinesSayParts(w, b.lines, owners, origins)
  }

  /** Everything the root leads to is there: what can be acted on has its ref, and whatever has something to say has
      its line. */
  ghost predicate NothingLeftOut(w: Walker, owners: seq<NodeId>, origins: seq<NodeId>) {
    forall id :: id in w.g && Reached(w.g, w.root, id) ==>
      && (Actionable(w.g[id]) ==> id in origins)
      && (HasLine(w.cs, w.limits, w.g[id]) ==> id in owners)
      && (Visible(w.g[id]) && w.g[id].role == "StaticText" ==> id in owners || NothingNew(w, id))
  }

  lemma WholeGraphDone(w: Walker, visited: set<NodeId>, origins: seq<NodeId>, owners: seq<NodeId>)
    requires w.root in visited && AllDone(w, visited, origins, owners, visited - {})
    ensures NothingLeftOut(w, owners, origins)
  {
    assert Inside(visited - {});
    forall id | id in w.g && Reached(w.g, w.root, id) ensures Done(w, visited, origins, owners, id) {
      var way := WayTo(w.g, w.root, id);
      ClosedHoldsReached(w, visited, origins, owners, way);
    }
  }

  lemma OriginsAre(w: Walker, refs: seq<RefEntry>, origins: seq<NodeId>, visited: set<NodeId>)
    requires RefsFine(w.g, w.limits, refs, origins, visited) && RefsSay(w.g, w.cs, w.limits, refs, origins)
    requires AllReached(w.g, w.root, visited)
    ensures |origins| == |refs| <= w.limits.maxRefs
    ensures forall i, j :: 0 <= i < j < |origins| ==> origins[i] != origins[j]
    ensures forall i :: 0 <= i < |origins| ==> OriginFine(w, refs[i], i, origins[i])
  {
    RefsFineMeans(w.g, w.limits, refs, origins, visited);
    RefsSayMeans(w.g, w.cs, w.limits, refs, origins);
    assert Inside(visited);
    forall i | 0 <= i < |origins|
      ensures OriginFine(w, refs[i], i, origins[i])
    {
      assert RefFine(w.g, refs[i], i, origins[i], visited) && RefSays(w.g, w.cs, w.limits, refs[i], origins[i]);
      assert origins[i] in visited;
    }
  }

  /** The last node with this id. */
  ghost predicate IsLastWith(nodes: seq<Node>, id: NodeId, i: nat) {
    && i < |nodes| && nodes[i].id == Some(id)
    && forall j :: i < j < |nodes| ==> nodes[j].id != Some(id)
  }

  /** The nodes by id. */
  function ById(nodes: seq<Node>): (g: Graph) {
    if nodes == [] then map[] else
      var g, last := ById(nodes[..|nodes| - 1]), nodes[|nodes| - 1];
      if last.id.Some? then g[last.id.value := last] else g
  }

  /** Of several nodes with one id the last counts. */
  lemma {:induction false} LastCounts(nodes: seq<Node>, id: NodeId, i: nat)
    requires IsLastWith(nodes, id, i)
    ensures id in ById(nodes) && ById(nodes)[id] == nodes[i]
    decreases |nodes|
  {
    var n := |nodes| - 1;
    if i < n {
      assert IsLastWith(nodes[..n], id, i);
      LastCounts(nodes[..n], id, i);
      assert nodes[n].id != Some(id);
    }
  }

  lemma {:induction false} OnlyReported(nodes: seq<Node>, id: NodeId) returns (i: nat)
    requires id in ById(nodes)
    ensures IsLastWith(nodes, id, i)
    decreases |nodes|
  {
    var n := |nodes| - 1;
    if nodes[n].id == Some(id) {
      i := n;
    } else {
      i := OnlyReported(nodes[..n], id);
      assert nodes[i] == nodes[..n][i];
      forall j | i < j < |nodes| ensures nodes[j].id != Some(id) {
        if j < n {
          assert nodes[j] == nodes[..n][j];
        }
      }
    }
  }

  /** Where the walk begins: the first node with an id that reports no parent. */
  function RootOf(nodes: seq<Node>): (root: Option<NodeId>) {
    if nodes == [] then None
    else if nodes[0].isRoot && nodes[0].id.Some? then nodes[0].id
    else RootOf(nodes[1..])
  }

  predicate IsRoot(nodes: seq<Node>, i: nat) {
    && i < |nodes| && nodes[i].isRoot && nodes[i].id.Some?
    && forall j :: 0 <= j < i ==> !(nodes[j].isRoot && nodes[j].id.Some?)
  }

  /** The walk begins at the id of the first root, and there is a node with that id, though perhaps another. */
  lemma {:induction false} RootIsFirst(nodes: seq<Node>, i: nat)
    requires IsRoot(nodes, i)
    ensures RootOf(nodes) == nodes[i].id && RootOf(nodes).value in ById(nodes)
    decreases |nodes|
  {
    if i > 0 {
      assert forall j :: 0 < j < |nodes| ==> nodes[1..][j - 1] == nodes[j];
      assert IsRoot(nodes[1..], i - 1);
      RootIsFirst(nodes[1..], i - 1);
    }
    var k := LastOf(nodes, nodes[i].id.value, i);
    LastCounts(nodes, nodes[i].id.value, k);
  }

  lemma LastOf(nodes: seq<Node>, id: NodeId, i: nat) returns (k: nat)
    requires i < |nodes| && nodes[i].id == Some(id)
    ensures IsLastWith(nodes, id, k)
    decreases |nodes| - i
  {
    if j :| i < j < |nodes| && nodes[j].id == Some(id) {
      k := LastOf(nodes, id, j);
    } else {
      k := i;
    }
  }

  method BuildSnapshot(nodes: seq<Node>, cs: Chars, limits: Limits)
    returns (b: Built, ghost origins: seq<NodeId>, ghost owners: seq<NodeId>)
    requires cs.Fine()
    ensures RootOf(nodes).None? ==> b == Built([NOTHING], [], false, false)
    ensures RootOf(nodes).Some? ==>
              var w := Walker(ById(nodes), cs, limits, RootOf(nodes).value);
              RefsRight(w, b, origins) && LinesRight(w, b, owners, origins)
              && (!b.truncated ==> NothingLeftOut(w, owners, origins))
    ensures b.summary == b.truncated && b.lines != []
    ensures b.lines == [NOTHING] || |PageText(b.lines)| < limits.maxChars
  {
    var root := RootOf(nodes);
    if root.None? {
      return Built([NOTHING], [], false, false), [], [];
    }
    b, origins, owners := WalkFrom(ById(nodes), root.value, cs, limits);
  }

  method WalkFrom(g: Graph, root: NodeId, cs: Chars, limits: Limits)
    returns (b: Built, ghost origins: seq<NodeId>, ghost owners: seq<NodeId>)
    requires cs.Fine()
    ensures var w := Walker(g, cs, limits, root);
            RefsRight(w, b, origins) && LinesRight(w, b, owners, origins)
            && (!b.truncated ==> NothingLeftOut(w, owners, origins))
    ensures b.summary == b.truncated && b.lines != []
    ensures b.lines == [NOTHING] || |PageText(b.lines)| < limits.maxChars
  {
    ghost var w := Walker(g, cs, limits, root);
    var builder := new Builder(g, cs, limits);
    RootReachedAs(w);
    LinesSayMeans(w, [], [], [], {});
    builder.Walk(root, 0, "", root);
    if !builder.truncated {
      WholeGraphDone(w, builder.visited, builder.origins, builder.owners);
    }
    origins, owners := builder.origins, builder.owners;
    LinesFineMeans(limits, builder.lines, builder.chars, |builder.refs|);
    LinesSayMeans(w, builder.lines, owners, origins, builder.visited);
    OriginsAre(w, builder.refs, origins, builder.visited);
    PageTextCosts(builder.lines);
    var lines := builder.lines;
    if lines == [] {
      lines := [NOTHING];
      assert Numbers([NOTHING]) == [] by {
        LineAdded([], NOTHING);
        assert [] + [NOTHING] == [NOTHING];
      }
    }
    b := Built(lines, builder.refs, builder.truncated, builder.truncated);
  }

  // ----- The text ---------------------------------------------------------------------------------------------

  function Blanks(n: nat): (s: string) {
    seq(n, _ => ' ')
  }

  /** The page as text: each line set in, with a line break between two. */
  function PageText(lines: seq<Line>): (s: string) {
    if lines == [] then "" else
      var before, last := PageText(lines[..|lines| - 1]), lines[|lines| - 1];
      before + (if |lines| == 1 then "" else "\n") + Blanks(last.indent) + last.Text()
  }

  /** What the lines are counted at is the length of the text, and one. */
  lemma {:induction false} PageTextCosts(lines: seq<Line>)
    ensures lines != [] ==> |PageText(lines)| + 1 == Costs(lines)
    decreases |lines|
  {
    if lines != [] {
      PageTextCosts(lines[..|lines| - 1]);
    }
  }

  function DigitsRead(s: string): (n: nat) {
    if s == "" then 0 else 10 * DigitsRead(s[..|s| - 1]) + if '0' <= s[|s| - 1] <= '9' then s[|s| - 1] as int - '0' as int else 0
  }

  /** The number on a line reads back as the ref's number. */
  lemma {:induction false} DecimalReads(n: nat)
    ensures DigitsRead(Decimal(n)) == n && Decimal(n) != ""
    ensures forall i :: 0 <= i < |Decimal(n)| ==> '0' <= Decimal(n)[i] <= '9'
    decreases n
  {
    if n >= 10 {
      DecimalReads(n / 10);
    } else {
      assert Decimal(n)[..0] == "";
    }
  }

  /** A tagged line begins with its ref in brackets. */
  lemma TagReads(line: Line)
    requires line.ref.Some?
    ensures var d := Decimal(line.ref.value);
            line.Text() == "[e" + d + "] " + line.body && DigitsRead(d) == line.ref.value && '[' !in d && ']' !in d
  {
    DecimalReads(line.ref.value);
  }
}
