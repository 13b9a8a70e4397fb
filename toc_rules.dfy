/** The rules of the table-of-contents navigator that its tests assert:
    harvesting navigation targets from slotted markup, choosing the active
    target among the intersecting ones, the two presentations of that choice,
    and the intersection margin derived from the height of the mobile
    control. */
module TocRules {
  import opened Collections
  import opened LayoutObservers

  // ---------------------------------------------------------------------
  // Trimming

  /** The whitespace `trim` removes (ASCII subset). */
  predicate IsSpace(c: char) {
    c == ' ' || c == '\t' || c == '\n' || c == '\r'
  }

  /** `s` without its leading whitespace. */
  function TrimStart(s: string): (r: string)
    ensures |r| <= |s| && r == s[|s| - |r|..]
    ensures forall k :: 0 <= k < |s| - |r| ==> IsSpace(s[k])
    ensures r == [] || !IsSpace(r[0])
  {
    if s != [] && IsSpace(s[0]) then TrimStart(s[1..]) else s
  }

  /** `s` without its trailing whitespace. */
  function TrimEnd(s: string): (r: string)
    ensures |r| <= |s| && r == s[..|r|]
    ensures forall k :: |r| <= k < |s| ==> IsSpace(s[k])
    ensures r == [] || !IsSpace(r[|r| - 1])
  {
    if s != [] && IsSpace(s[|s| - 1]) then TrimEnd(s[..|s| - 1]) else s
  }

  /** No whitespace at either end. */
  predicate IsTrimmed(s: string) {
    s == [] || (!IsSpace(s[0]) && !IsSpace(s[|s| - 1]))
  }

  /** `String.prototype.trim`: `s` without whitespace at either end. */
  function Trim(s: string): (r: string)
    ensures IsTrimmed(r) && |r| <= |s|
  {
    var t := TrimStart(s);
    var r := TrimEnd(t);
    assert r != [] ==> r[0] == t[0];
    r
  }

  /** What trimming keeps is a slice of `s`, starting where the leading
      whitespace ends, and all it drops is whitespace. */
  lemma TrimIsSlice(s: string)
    ensures var i, r := |s| - |TrimStart(s)|, Trim(s);
      0 <= i <= i + |r| <= |s| && r == s[i..i + |r|] &&
      (forall k :: 0 <= k < i ==> IsSpace(s[k])) && (forall k :: i + |r| <= k < |s| ==> IsSpace(s[k]))
  {
    var t := TrimStart(s);
    var r := TrimEnd(t);
    assert r == Trim(s);
    SliceOfSuffix(s, t, r);
  }

  /** A prefix `r` of a suffix `t` of `s` is a slice of `s`, and whitespace
      that follows `r` in `t` follows it in `s`. */
  lemma SliceOfSuffix(s: string, t: string, r: string)
    requires |t| <= |s| && t == s[|s| - |t|..]
    requires |r| <= |t| && r == t[..|r|]
    requires forall k :: |r| <= k < |t| ==> IsSpace(t[k])
    ensures var i := |s| - |t|; r == s[i..i + |r|] && forall k :: i + |r| <= k < |s| ==> IsSpace(s[k])
  {
    var i := |s| - |t|;
    forall k | i + |r| <= k < |s|
      ensures IsSpace(s[k])
    {
      assert s[k] == t[k - i];
    }
  }

  /** Trimming leaves an already trimmed string alone; so trimming twice is
      trimming once. */
  lemma TrimKeepsTrimmed(s: string)
    requires IsTrimmed(s)
    ensures Trim(s) == s
  {
    assert TrimStart(s) == s;
    assert TrimEnd(s) == s;
  }

  lemma TrimIdempotent(s: string)
    ensures Trim(Trim(s)) == Trim(s)
  {
    TrimKeepsTrimmed(Trim(s));
  }

  // ---------------------------------------------------------------------
  // Harvesting

  /** The slotted markup: text, `<a>` anchors with their optional `name` and
      `data-title` attributes, and any other element. */
  datatype Node =
    | Text(text: string)
    | Anchor(name: Option<string>, dataTitle: Option<string>, children: seq<Node>)
    | Container(children: seq<Node>)

  /** `textContent`: the text of every descendant text node, in document order. */
  function TextOf(n: Node): string
    decreases n, 1
  {
    match n
    case Text(t) => t
    case Anchor(_, _, cs) => TextOfAll(cs)
    case Container(cs) => TextOfAll(cs)
  }

  function TextOfAll(ns: seq<Node>): string
    decreases ns, 0
  {
    if ns == [] then [] else TextOf(ns[0]) + TextOfAll(ns[1..])
  }

  /** A navigation target: the anchor's name (the `data-target` of its link)
      and the title shown for it. */
  datatype Target = Target(name: string, title: string)

  /** The `href` fragment of a target's link. */
  function Hash(t: Target): (h: string)
    ensures |h| == |t.name| + 1 && h[0] == '#' && h[1..] == t.name
  {
    "#" + t.name
  }

  /** The title of an anchor: its `data-title` when given and non-empty, else
      its trimmed text content. */
  function TitleOf(dataTitle: Option<string>, children: seq<Node>): (title: string)
    ensures dataTitle.Some? && dataTitle.value != [] ==> title == dataTitle.value
    ensures dataTitle.None? || dataTitle.value == [] ==> title == Trim(TextOfAll(children))
  {
    if dataTitle.Some? && dataTitle.value != [] then dataTitle.value else Trim(TextOfAll(children))
  }

  /** The targets of a node, depth first in document order: every anchor that
      carries a name. */
  function HarvestNode(n: Node): seq<Target>
    decreases n, 1
  {
    match n
    case Text(_) => []
    case Anchor(name, dataTitle, cs) =>
      (if name.Some? then [Target(name.value, TitleOf(dataTitle, cs))] else []) + Harvest(cs)
    case Container(cs) => Harvest(cs)
  }

  /** The targets harvested from the slotted nodes, in document order. */
  function Harvest(ns: seq<Node>): seq<Target>
    decreases ns, 0
  {
    if ns == [] then [] else HarvestNode(ns[0]) + Harvest(ns[1..])
  }

  /** How many anchors with a name a node holds, at any depth. */
  function NamedAnchorsIn(n: Node): nat
    decreases n, 1
  {
    match n
    case Text(_) => 0
    case Anchor(name, _, cs) => (if name.Some? then 1 else 0) + NamedAnchorsInAll(cs)
    case Container(cs) => NamedAnchorsInAll(cs)
  }

  function NamedAnchorsInAll(ns: seq<Node>): nat
    decreases ns, 0
  {
    if ns == [] then 0 else NamedAnchorsIn(ns[0]) + NamedAnchorsInAll(ns[1..])
  }

  /** One target per named anchor, however deeply the anchors are nested. */
  lemma {:induction false} HarvestNodeCount(n: Node)
    ensures |HarvestNode(n)| == NamedAnchorsIn(n)
    decreases n, 1
  {
    match n
    case Text(_) =>
    case Anchor(_, _, cs) => HarvestCount(cs);
    case Container(cs) => HarvestCount(cs);
  }

  lemma {:induction false} HarvestCount(ns: seq<Node>)
    ensures |Harvest(ns)| == NamedAnchorsInAll(ns)
    decreases ns, 0
  {
    if ns != [] {
      HarvestNodeCount(ns[0]);
      HarvestCount(ns[1..]);
    }
  }

  /** Harvesting two stretches of markup one after the other yields the
      targets of the first followed by those of the second. */
  lemma {:induction false} HarvestConcat(a: seq<Node>, b: seq<Node>)
    ensures Harvest(a + b) == Harvest(a) + Harvest(b)
  {
    if a == [] {
      assert a + b == b;
    } else {
      assert (a + b)[0] == a[0];
      assert (a + b)[1..] == a[1..] + b;
      HarvestConcat(a[1..], b);
    }
  }

  /** Wrapping the markup in another element does not change the harvest. */
  lemma HarvestWrapped(ns: seq<Node>)
    ensures Harvest([Container(ns)]) == Harvest(ns)
  {
    assert [Container(ns)][1..] == [];
  }

  // ---------------------------------------------------------------------
  // Selection

  /** Whether each target name currently intersects the observed viewport
      region, as the last intersection entry for it reported. */
  type IntersectionState = map<string, bool>

  predicate IsIntersecting(state: IntersectionState, name: string) {
    name in state && state[name]
  }

  /** The position of the first target, in harvested order, that is
      intersecting; none when no target is. */
  function FirstIntersecting(targets: seq<Target>, state: IntersectionState): (r: Option<nat>)
    ensures r.Some? ==> r.value < |targets| && IsIntersecting(state, targets[r.value].name)
    ensures r.Some? ==> forall j :: 0 <= j < r.value ==> !IsIntersecting(state, targets[j].name)
    ensures r.None? <==> forall j :: 0 <= j < |targets| ==> !IsIntersecting(state, targets[j].name)
  {
    if targets == [] then None
    else if IsIntersecting(state, targets[0].name) then Some(0)
    else match FirstIntersecting(targets[1..], state)
      case None => None
      case Some(k) => Some(k + 1)
  }

  /** The active target: the name of the first intersecting target. */
  function ActiveTarget(targets: seq<Target>, state: IntersectionState): (active: Option<string>)
    ensures active.Some? <==> exists j :: 0 <= j < |targets| && IsIntersecting(state, targets[j].name)
    ensures active.Some? ==> IsIntersecting(state, active.value)
  {
    match FirstIntersecting(targets, state)
    case None => None
    case Some(k) => Some(targets[k].name)
  }

  /** Which desktop items carry the active class. */
  function DesktopActiveFlags(targets: seq<Target>, active: Option<string>): (flags: seq<bool>)
    ensures |flags| == |targets|
    ensures forall i :: 0 <= i < |targets| ==> (flags[i] <==> active == Some(targets[i].name))
  {
    seq(|targets|, i requires 0 <= i < |targets| => active == Some(targets[i].name))
  }

  /** Harvested names are expected to be unique. */
  predicate DistinctNames(targets: seq<Target>) {
    forall i, j :: 0 <= i < j < |targets| ==> targets[i].name != targets[j].name
  }

  /** With distinct names, exactly the desktop item of the first intersecting
      target is marked active. */
  lemma ExactlyOneDesktopItemActive(targets: seq<Target>, state: IntersectionState, k: nat)
    requires DistinctNames(targets)
    requires FirstIntersecting(targets, state) == Some(k)
    ensures forall i :: 0 <= i < |targets| ==>
      (DesktopActiveFlags(targets, ActiveTarget(targets, state))[i] <==> i == k)
  {
  }

  /** The position of the first mobile `<option>` marked selected: the first
      target whose name is the active one; none when no target is active. */
  function SelectedOption(targets: seq<Target>, active: Option<string>): (r: Option<nat>)
    ensures r.Some? ==> r.value < |targets| && active == Some(targets[r.value].name)
    ensures r.Some? ==> forall j :: 0 <= j < r.value ==> active != Some(targets[j].name)
    ensures r.None? <==> forall j :: 0 <= j < |targets| ==> active != Some(targets[j].name)
  {
    if targets == [] then None
    else if active == Some(targets[0].name) then Some(0)
    else match SelectedOption(targets[1..], active)
      case None => None
      case Some(k) => Some(k + 1)
  }

  /** The `value` of the mobile `<select>`, one option per target: the value of
      the first option marked selected; when none is, the browser selects the
      first option; with no options at all the value is empty. */
  function SelectValue(targets: seq<Target>, active: Option<string>): (value: string)
    ensures (exists j :: 0 <= j < |targets| && active == Some(targets[j].name)) ==> Some(value) == active
    ensures targets != [] ==> exists j :: 0 <= j < |targets| && value == targets[j].name
    ensures targets != [] && (forall j :: 0 <= j < |targets| ==> active != Some(targets[j].name)) ==>
      value == targets[0].name
    ensures targets == [] ==> value == ""
  {
    match SelectedOption(targets, active)
    case Some(k) => targets[k].name
    case None => if targets == [] then "" else targets[0].name
  }

  // ---------------------------------------------------------------------
  // Margin

  function DigitChar(d: nat): (c: char)
    requires d < 10
    ensures '0' <= c <= '9'
  {
    (('0' as int) + d) as char
  }

  function DigitValue(c: char): (d: nat)
    requires '0' <= c <= '9'
    ensures d < 10 && DigitChar(d) == c
  {
    (c as int) - ('0' as int)
  }

  predicate IsDigits(s: string) {
    forall k :: 0 <= k < |s| ==> '0' <= s[k] <= '9'
  }

  /** The decimal digits of `n`, most significant first, without leading zeros. */
  function NatToString(n: nat): (r: string)
    ensures |r| >= 1 && IsDigits(r)
    ensures |r| > 1 ==> r[0] != '0'
    decreases n
  {
    if n < 10 then [DigitChar(n)] else NatToString(n / 10) + [DigitChar(n % 10)]
  }

  /** The number a string of decimal digits denotes. */
  function ParseNat(s: string): nat
    requires IsDigits(s)
  {
    if s == [] then 0 else ParseNat(s[..|s| - 1]) * 10 + DigitValue(s[|s| - 1])
  }

  lemma {:induction false} ParseNatToString(n: nat)
    ensures ParseNat(NatToString(n)) == n
    decreases n
  {
    if n >= 10 {
      var s := NatToString(n);
      assert s[..|s| - 1] == NatToString(n / 10);
      ParseNatToString(n / 10);
    }
  }

  /** The part of the margin after the top value. */
  const MarginTail := "px 0px 0px 0px"

  /** The `rootMargin` for a mobile control `height` pixels high: the top edge
      of the observed region moves down by that height. */
  function RootMargin(height: nat): (m: string)
    ensures |m| > 1 + |MarginTail| && m[0] == '-'
  {
    "-" + NatToString(height) + MarginTail
  }

  /** Reads the height back from a margin of the shape `RootMargin` writes. */
  function ParseRootMargin(m: string): (height: Option<nat>)
  {
    if |m| > 1 + |MarginTail| && m[0] == '-' && m[|m| - |MarginTail|..] == MarginTail
       && IsDigits(m[1..|m| - |MarginTail|])
    then Some(ParseNat(m[1..|m| - |MarginTail|]))
    else None
  }

  /** The margin determines the height it was made from. */
  lemma RootMarginRoundTrip(height: nat)
    ensures ParseRootMargin(RootMargin(height)) == Some(height)
  {
    var m := RootMargin(height);
    assert m[1..|m| - |MarginTail|] == NatToString(height);
    assert m[|m| - |MarginTail|..] == MarginTail;
    ParseNatToString(height);
  }

  lemma RootMarginInjective(h1: nat, h2: nat)
    ensures RootMargin(h1) == RootMargin(h2) ==> h1 == h2
  {
    RootMarginRoundTrip(h1);
    RootMarginRoundTrip(h2);
  }

  /** The options of the intersection observer for a mobile control `height`
      pixels high: that margin, and a threshold of 1 (fully visible). */
  function IntersectionOptions(height: nat): (options: ObserverOptions)
    ensures options.rootMargin.Some? && ParseRootMargin(options.rootMargin.value) == Some(height)
    ensures options.threshold == Some(1.0) && options.root.None?
  {
    RootMarginRoundTrip(height);
    ObserverOptions(None, Some(RootMargin(height)), Some(1.0))
  }
}
