/** The table-of-contents test cases, replayed against the model: the three
    harvesting cases, the two intersection cases and the mobile-height case.
    The navigator's own wiring of the observers is not part of this model;
    where a case needs it, the reaction the test expects is written out here. */
module TocScenarios {
  import opened Collections
  import opened LayoutObservers
  import opened TocRules

  /** The whitespace text the template leaves between the slotted anchors.
      The template's indentation varies (a shorter gap after the last anchor,
      deeper ones inside the `<div>`); one width stands for all of them, as
      harvesting ignores text between anchors whatever it holds. */
  const Gap := "\n            "

  /** `<a name="n">Section - n</a>` */
  function SectionAnchor(name: string): Node {
    Anchor(Some(name), None, [Text("Section - " + name)])
  }

  /** `<a name="n" data-title="Section - n"></a>` */
  function TitledAnchor(name: string): Node {
    Anchor(Some(name), Some("Section - " + name), [])
  }

  /** Three anchors between the gaps the template leaves. */
  function BetweenGaps(a: Node, b: Node, c: Node): seq<Node> {
    [Text(Gap), a, Text(Gap), b, Text(Gap), c, Text(Gap)]
  }

  const TextAnchors: seq<Node> := BetweenGaps(SectionAnchor("1"), SectionAnchor("2"), SectionAnchor("3"))

  const TitledAnchors: seq<Node> := BetweenGaps(TitledAnchor("1"), TitledAnchor("2"), TitledAnchor("3"))

  /** The same three anchors inside a `<div>`. */
  const NestedAnchors: seq<Node> := [Text(Gap), Container(TextAnchors), Text(Gap)]

  /** What every harvesting case expects: targets 1, 2, 3 titled `Section - n`. */
  const ExpectedTargets: seq<Target> :=
    [Target("1", "Section - 1"), Target("2", "Section - 2"), Target("3", "Section - 3")]

  /** Text contributes nothing. */
  lemma TextThen(text: string, x: Node, rest: seq<Node>)
    ensures Harvest([Text(text), x] + rest) == HarvestNode(x) + Harvest(rest)
  {
    var ns := [Text(text), x] + rest;
    assert ns[0] == Text(text) && ns[1..] == [x] + rest;
    assert ([x] + rest)[0] == x && ([x] + rest)[1..] == rest;
    assert HarvestNode(Text(text)) == [];
  }

  /** Three nodes separated by text harvest as the three nodes. */
  lemma HarvestSeparated(g: string, a: Node, b: Node, c: Node)
    ensures Harvest([Text(g), a, Text(g), b, Text(g), c, Text(g)]) == HarvestNode(a) + HarvestNode(b) + HarvestNode(c)
  {
    var last := [Text(g)];
    SingleText(g);
    assert [Text(g), a, Text(g), b, Text(g), c, Text(g)] == [Text(g), a] + ([Text(g), b] + ([Text(g), c] + last));
    TextThen(g, a, [Text(g), b] + ([Text(g), c] + last));
    TextThen(g, b, [Text(g), c] + last);
    TextThen(g, c, last);
  }

  /** The gaps contribute nothing. */
  lemma HarvestBetweenGaps(a: Node, b: Node, c: Node)
    ensures Harvest(BetweenGaps(a, b, c)) == HarvestNode(a) + HarvestNode(b) + HarvestNode(c)
  {
    HarvestSeparated(Gap, a, b, c);
  }

  lemma SectionTextTrimmed(name: string)
    requires name != [] && !IsSpace(name[|name| - 1])
    ensures IsTrimmed("Section - " + name)
  {
    var text := "Section - " + name;
    assert text[0] == 'S';
    assert text[|text| - 1] == name[|name| - 1];
  }

  lemma SingleText(text: string)
    ensures TextOfAll([Text(text)]) == text && Harvest([Text(text)]) == []
  {
    assert TextOf(Text(text)) == text && TextOfAll([]) == [];
    assert HarvestNode(Text(text)) == [] && Harvest([]) == [];
    assert [Text(text)][1..] == [];
  }

  lemma TitleFromTrimmedText(text: string)
    requires IsTrimmed(text)
    ensures TitleOf(None, [Text(text)]) == text
  {
    SingleText(text);
    TrimKeepsTrimmed(text);
  }

  lemma AnchorHarvest(name: string, cs: seq<Node>)
    requires Harvest(cs) == []
    ensures HarvestNode(Anchor(Some(name), None, cs)) == [Target(name, TitleOf(None, cs))]
  {
  }

  lemma SectionAnchorHarvest(name: string)
    requires name != [] && !IsSpace(name[|name| - 1])
    ensures HarvestNode(SectionAnchor(name)) == [Target(name, "Section - " + name)]
  {
    var cs := [Text("Section - " + name)];
    SingleText("Section - " + name);
    AnchorHarvest(name, cs);
    SectionTextTrimmed(name);
    TitleFromTrimmedText("Section - " + name);
  }

  lemma TitledAnchorHarvest(name: string)
    ensures HarvestNode(TitledAnchor(name)) == [Target(name, "Section - " + name)]
  {
    assert Harvest([]) == [];
    assert TitleOf(Some("Section - " + name), []) == "Section - " + name;
  }

  lemma SectionNames()
    ensures [Target("1", "Section - " + "1")] + [Target("2", "Section - " + "2")] + [Target("3", "Section - " + "3")]
         == ExpectedTargets
  {
    assert "Section - " + "1" == "Section - 1";
    assert "Section - " + "2" == "Section - 2";
    assert "Section - " + "3" == "Section - 3";
  }

  /** Three section anchors between gaps give their three targets, titled by
      their text. */
  lemma HarvestSections(n1: string, n2: string, n3: string)
    requires n1 != [] && !IsSpace(n1[|n1| - 1])
    requires n2 != [] && !IsSpace(n2[|n2| - 1])
    requires n3 != [] && !IsSpace(n3[|n3| - 1])
    ensures Harvest(BetweenGaps(SectionAnchor(n1), SectionAnchor(n2), SectionAnchor(n3)))
         == [Target(n1, "Section - " + n1)] + [Target(n2, "Section - " + n2)] + [Target(n3, "Section - " + n3)]
  {
    HarvestBetweenGaps(SectionAnchor(n1), SectionAnchor(n2), SectionAnchor(n3));
    SectionAnchorHarvest(n1);
    SectionAnchorHarvest(n2);
    SectionAnchorHarvest(n3);
  }

  lemma HarvestFromTextContents()
    ensures Harvest(TextAnchors) == ExpectedTargets
  {
    HarvestSections("1", "2", "3");
    SectionNames();
  }

  /** The links of the expected targets point at `#1`, `#2` and `#3`. */
  lemma ExpectedHashes()
    ensures Hash(ExpectedTargets[0]) == "#1" && Hash(ExpectedTargets[1]) == "#2" && Hash(ExpectedTargets[2]) == "#3"
  {
  }

  lemma HarvestFromDataTitle()
    ensures Harvest(TitledAnchors) == ExpectedTargets
  {
    HarvestBetweenGaps(TitledAnchor("1"), TitledAnchor("2"), TitledAnchor("3"));
    TitledAnchorHarvest("1");
    TitledAnchorHarvest("2");
    TitledAnchorHarvest("3");
    SectionNames();
  }

  lemma HarvestFromNestedDescendants()
    ensures Harvest(NestedAnchors) == ExpectedTargets
  {
    HarvestFromTextContents();
    HarvestWrapped(TextAnchors);
    HarvestConcat([Text(Gap)], [Container(TextAnchors), Text(Gap)]);
    HarvestConcat([Container(TextAnchors)], [Text(Gap)]);
  }

  /** The anchor elements of the intersection cases: element n is the anchor
      named `n`. */
  function AnchorName(e: Element): string {
    NatToString(e.id)
  }

  /** How the navigator takes in intersection entries: each sets the flag of
      the anchor it targets. */
  function RecordEntries(state: IntersectionState, entries: seq<Entry>): IntersectionState
    decreases entries
  {
    if entries == [] then state
    else
      var e := entries[0];
      var next := if e.payload.Intersected? then state[AnchorName(e.target) := e.payload.isIntersecting] else state;
      RecordEntries(next, entries[1..])
  }

  function RecordCalls(state: IntersectionState, calls: seq<Notification>): IntersectionState
    decreases calls
  {
    if calls == [] then state else RecordCalls(RecordEntries(state, calls[0].entries), calls[1..])
  }

  lemma RecordOne(state: IntersectionState, n: Notification, e: Element, isIntersecting: bool)
    requires n.entries == [Entry(e, Intersected(isIntersecting))]
    ensures RecordCalls(state, [n]) == state[AnchorName(e) := isIntersecting]
  {
    var next := state[AnchorName(e) := isIntersecting];
    assert n.entries[1..] == [];
    assert RecordEntries(state, n.entries) == RecordEntries(next, []) == next;
    assert [n][1..] == [];
    assert RecordCalls(state, [n]) == RecordCalls(next, []);
  }

  lemma AnchorNames()
    ensures AnchorName(Element(1)) == "1" && AnchorName(Element(2)) == "2" && AnchorName(Element(3)) == "3"
  {
    assert NatToString(1) == [DigitChar(1)];
    assert NatToString(2) == [DigitChar(2)];
    assert NatToString(3) == [DigitChar(3)];
  }

  /** Whenever anchor 1 is not intersecting and anchor 2 is, anchor 2 is the
      active one in both presentations, whatever anchor 3 reports. */
  lemma SecondAnchorActive(state: IntersectionState)
    requires !IsIntersecting(state, "1") && IsIntersecting(state, "2")
    ensures ActiveTarget(ExpectedTargets, state) == Some("2")
    ensures DesktopActiveFlags(ExpectedTargets, Some("2")) == [false, true, false]
    ensures SelectValue(ExpectedTargets, Some("2")) == "2"
  {
    var ts := ExpectedTargets;
    assert ts[0].name == "1" && ts[1].name == "2" && ts[2].name == "3";
    assert FirstIntersecting(ts[1..], state) == Some(0);
    assert FirstIntersecting(ts, state) == Some(1);
    var flags := DesktopActiveFlags(ts, Some("2"));
    assert "1" != "2" && "3" != "2";
    assert !flags[0] && flags[1] && !flags[2];
  }

  /** The targets the navigator harvests from the three anchors. */
  method HarvestedTargets() returns (targets: seq<Target>)
    ensures targets == ExpectedTargets
  {
    targets := Harvest(TextAnchors);
    HarvestFromTextContents();
  }

  /** An intersection observer with a callback, observing the three anchors,
      as the navigator sets it up after harvesting. */
  method ObserveAnchors(io: ObserverClass, options: Option<ObserverOptions>) returns (observer: LayoutObserver)
    requires io.Valid() && io.instances == [] && io.kind == IntersectionKind
    modifies io
    ensures io.Valid() && observer.Valid() && observer.cls == io
    ensures io.instances == [observer] && observer.callback == Some(0)
    ensures observer.targets == {Element(1), Element(2), Element(3)}
  {
    observer := new LayoutObserver(io, Some(0), options);
    observer.Observe(Element(1));
    observer.Observe(Element(2));
    observer.Observe(Element(3));
  }

  /** An intersection run for an anchor the one registered observer watches
      calls that observer's callback once, with one entry for the anchor. */
  method ReportIntersecting(io: ObserverClass, observer: LayoutObserver, anchor: Element) returns (calls: seq<Notification>)
    requires io.kind == IntersectionKind && io.instances == [observer]
    requires observer.callback == Some(0) && anchor in observer.targets
    ensures calls == [Notification(0, [Entry(anchor, Intersected(true))], observer)]
  {
    calls := io.RunIntersection(anchor, true);
    NotificationsOfOne(observer, anchor, Intersected(true));
  }

  /** Anchor 2 reported intersecting: only desktop item 1 is active and the
      mobile select shows `2`. */
  method ReactToIntersection() returns (desktop: seq<bool>, select: string)
    ensures desktop == [false, true, false] && select == "2"
  {
    var io := new ObserverClass(IntersectionKind);
    var observer := ObserveAnchors(io, None);
    var calls := ReportIntersecting(io, observer, Element(2));
    var state := RecordCalls(map[], calls);
    AnchorNames();
    RecordOne(map[], calls[0], Element(2), true);
    assert state == map["2" := true];
    var targets := HarvestedTargets();
    var active := ActiveTarget(targets, state);
    SecondAnchorActive(state);
    desktop := DesktopActiveFlags(targets, active);
    select := SelectValue(targets, active);
  }

  /** Anchors 2 and 3 both reported intersecting: the earlier one, 2, is
      active. */
  method PickFirstIntersected() returns (desktop: seq<bool>, select: string)
    ensures desktop == [false, true, false] && select == "2"
  {
    var io := new ObserverClass(IntersectionKind);
    var observer := ObserveAnchors(io, None);
    var calls2 := ReportIntersecting(io, observer, Element(2));
    var calls3 := ReportIntersecting(io, observer, Element(3));
    var state := RecordCalls(RecordCalls(map[], calls2), calls3);
    AnchorNames();
    RecordOne(map[], calls2[0], Element(2), true);
    RecordOne(map["2" := true], calls3[0], Element(3), true);
    assert state == map["2" := true, "3" := true];
    var targets := HarvestedTargets();
    var active := ActiveTarget(targets, state);
    SecondAnchorActive(state);
    desktop := DesktopActiveFlags(targets, active);
    select := SelectValue(targets, active);
  }

  /** The reaction the mobile-height case expects of the navigator: the
      current intersection observer is disconnected and a new one, with the
      margin for `height`, observes every anchor. */
  method Reobserve(io: ObserverClass, current: LayoutObserver, callback: CallbackId, anchors: seq<Element>, height: nat)
    returns (next: LayoutObserver)
    requires current.Valid() && current.cls == io
    requires forall o :: o in io.instances ==> o == current
    requires anchors != []
    modifies current, io
    ensures io.Valid() && next.cls == io && next.options == IntersectionOptions(height)
    ensures next.targets == set e | e in anchors
    ensures io.instances == [next]
    ensures io.InstanceOptions() == [IntersectionOptions(height)]
  {
    ghost var registered := io.instances;
    current.Disconnect();
    WithoutOnly(registered, current);
    next := new LayoutObserver(io, Some(callback), Some(IntersectionOptions(height)));
    for i := 0 to |anchors|
      invariant io.Valid() && next.Valid() && next.cls == io
      invariant next.targets == set e | e in anchors[..i]
      invariant io.instances == if i == 0 then [] else [next]
    {
      next.Observe(anchors[i]);
      assert anchors[..i + 1] == anchors[..i] + [anchors[i]];
    }
    assert anchors[..|anchors|] == anchors;
  }

  /** A resize observer with a callback, observing the mobile control. */
  method ObserveMobile(ro: ObserverClass, mobile: Element) returns (observer: LayoutObserver)
    requires ro.Valid() && ro.instances == [] && ro.kind == ResizeKind
    modifies ro
    ensures ro.Valid() && ro.instances == [observer]
    ensures observer.callback == Some(0) && observer.targets == {mobile}
  {
    observer := new LayoutObserver(ro, Some(0), None);
    observer.Observe(mobile);
  }

  lemma MarginFor32()
    ensures IntersectionOptions(32) == ObserverOptions(None, Some("-32px 0px 0px 0px"), Some(1.0))
  {
    assert NatToString(3) == "3";
    assert NatToString(32) == NatToString(3) + [DigitChar(2)] == "32";
    assert RootMargin(32) == "-" + "32" + MarginTail == "-32px 0px 0px 0px";
  }

  /** A resize of the mobile control to 32 pixels leaves exactly one
      intersection registration, with margin `-32px 0px 0px 0px` and
      threshold 1, whatever options the first intersection observer had. */
  method ReflectMobileHeightToMargin(initial: Option<ObserverOptions>) returns (options: seq<ObserverOptions>)
    ensures options == [ObserverOptions(None, Some("-32px 0px 0px 0px"), Some(1.0))]
  {
    var ro := new ObserverClass(ResizeKind);
    var io := new ObserverClass(IntersectionKind);
    var mobile := Element(0);
    var resizeObserver := ObserveMobile(ro, mobile);
    var first := ObserveAnchors(io, initial);

    var reported := Rect(None, Some(32), None, None, None, None);
    var calls := ro.RunResize(mobile, reported);
    NotificationsOfOne(resizeObserver, mobile, Resized(reported));
    var height := calls[0].entries[0].payload.contentRect.height;
    assert height == Some(32);

    var next := Reobserve(io, first, 1, [Element(1), Element(2), Element(3)], height.value);
    options := io.InstanceOptions();
    MarginFor32();
  }
}
