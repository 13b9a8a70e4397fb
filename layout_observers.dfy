/** The mock layout observers that stand in for the browser's `ResizeObserver`
    and `IntersectionObserver` in the table-of-contents tests.

    Every observer instance keeps the set of elements it observes. Each of the
    two subclasses keeps its own registry of the instances that currently
    observe something; `observe`, `unobserve` and `disconnect` update both in
    place, and the subclass's `run` hands one synthetic entry to every
    registered instance that observes a given element. */
module LayoutObservers {
  import opened Collections

  /** A DOM element, identified by its object identity in the document. */
  datatype Element = Element(id: nat)

  /** The two concrete subclasses of the mock. */
  datatype Kind = ResizeKind | IntersectionKind

  /** The callback a caller hands to the constructor. It is not called here;
      its invocations are returned as `Notification` records. */
  type CallbackId = nat

  /** `IntersectionObserverInit`: the options record every instance keeps. */
  datatype ObserverOptions = ObserverOptions(
    root: Option<Element>,
    rootMargin: Option<string>,
    threshold: Option<real>)

  /** The options of an instance constructed without any (`{}`). */
  const NoOptions := ObserverOptions(None, None, None)

  /** `Partial<ClientRect>`: the content rectangle a resize run reports. */
  datatype Rect = Rect(
    bottom: Option<int>,
    height: Option<int>,
    left: Option<int>,
    right: Option<int>,
    top: Option<int>,
    width: Option<int>)

  /** What an entry carries besides its target: a content rectangle for the
      resize mock, the intersecting flag for the intersection mock. */
  datatype Payload = Resized(contentRect: Rect) | Intersected(isIntersecting: bool)

  /** One observer entry handed to a callback. */
  datatype Entry = Entry(target: Element, payload: Payload)

  /** One invocation of an instance's callback: the entries it received and
      the instance passed as the callback's second argument. */
  datatype Notification = Notification(callback: CallbackId, entries: seq<Entry>, observer: LayoutObserver)

  /** The static side of one subclass (`MockResizeObserver` or
      `MockIntersectionObserver`): its registry `_instances` of live instances,
      kept in insertion order as a JavaScript `Set` keeps it. */
  class ObserverClass {
    const kind: Kind
    var instances: seq<LayoutObserver>
    /** Every instance ever constructed of this subclass. */
    ghost var created: set<LayoutObserver>

    /** The registry holds each instance at most once, holds only instances of
        this subclass, and holds an instance exactly when that instance
        observes at least one element. */
    ghost predicate Valid()
      reads this, created
    {
      Distinct(instances) &&
      (forall o :: o in instances ==> o in created) &&
      (forall o :: o in created ==> o.cls == this && (o in instances <==> o.targets != {}))
    }

    constructor (kind: Kind)
      ensures Valid() && this.kind == kind && instances == [] && created == {}
    {
      this.kind := kind;
      instances := [];
      created := {};
    }

    /** `instanceOptions`: the options of every registered instance, in
        registration order. */
    function InstanceOptions(): (r: seq<ObserverOptions>)
      reads this
      ensures |r| == |instances|
      ensures forall i :: 0 <= i < |r| ==> r[i] == instances[i].options
    {
      var live := instances;
      seq(|live|, i requires 0 <= i < |live| => live[i].options)
    }

    /** The loop both `run`s share: every registered instance that has a
        callback and observes `elem` is handed one entry for `elem`, in
        registration order. Nothing is modified. */
    method Deliver(elem: Element, payload: Payload) returns (calls: seq<Notification>)
      ensures calls == Notifications(instances, elem, payload)
    {
      calls := [];
      var i := 0;
      while i < |instances|
        invariant 0 <= i <= |instances|
        invariant calls == Notifications(instances[..i], elem, payload)
      {
        var o := instances[i];
        if o.callback.Some? && elem in o.targets {
          calls := calls + [Notification(o.callback.value, [Entry(elem, payload)], o)];
        }
        assert instances[..i + 1][..i] == instances[..i];
        i := i + 1;
      }
      assert instances[..i] == instances;
    }

    /** `MockResizeObserver.run(elem, contentRect)`. */
    method RunResize(elem: Element, contentRect: Rect) returns (calls: seq<Notification>)
      requires kind == ResizeKind
      ensures calls == Notifications(instances, elem, Resized(contentRect))
    {
      calls := Deliver(elem, Resized(contentRect));
    }

    /** `MockIntersectionObserver.run(elem, isIntersecting)`. */
    method RunIntersection(elem: Element, isIntersecting: bool) returns (calls: seq<Notification>)
      requires kind == IntersectionKind
      ensures calls == Notifications(instances, elem, Intersected(isIntersecting))
    {
      calls := Deliver(elem, Intersected(isIntersecting));
    }
  }

  /** The callback invocations one `run` over the registry `obs` makes for
      `elem`: one per instance that has a callback and observes `elem`, each
      with a single entry whose target is `elem` and which carries `payload`. */
  function Notifications(obs: seq<LayoutObserver>, elem: Element, payload: Payload): (r: seq<Notification>)
    reads set o | o in obs
    ensures forall k :: 0 <= k < |r| ==>
      r[k].entries == [Entry(elem, payload)] && r[k].observer in obs &&
      r[k].observer.callback == Some(r[k].callback) && elem in r[k].observer.targets
  {
    if obs == [] then []
    else
      var init, o := obs[..|obs| - 1], obs[|obs| - 1];
      assert obs == init + [o];
      Notifications(init, elem, payload) +
      (if o.callback.Some? && elem in o.targets
       then [Notification(o.callback.value, [Entry(elem, payload)], o)]
       else [])
  }

  /** One instance of the mock (`MockLayoutObserver`). */
  class LayoutObserver {
    /** `this.constructor`: the subclass whose registry this instance joins. */
    const cls: ObserverClass
    const callback: Option<CallbackId>
    const options: ObserverOptions
    /** `_targets`: the observed elements. */
    var targets: set<Element>

    /** The instance belongs to its subclass and that subclass's registry
        invariant holds. */
    ghost predicate Valid()
      reads this, cls, cls.created
    {
      this in cls.created && cls.Valid()
    }

    /** The options are copied from `options` when given, else left empty. The
        new instance observes nothing and so is not registered. */
    constructor (cls: ObserverClass, callback: Option<CallbackId>, options: Option<ObserverOptions>)
      requires cls.Valid()
      modifies cls`created
      ensures Valid() && this.cls == cls
      ensures cls.created == old(cls.created) + {this} && cls.instances == old(cls.instances)
      ensures this.callback == callback && targets == {}
      ensures this.options == if options.Some? then options.value else NoOptions
    {
      this.cls := cls;
      this.callback := callback;
      this.options := if options.Some? then options.value else NoOptions;
      targets := {};
      new;
      cls.created := cls.created + {this};
    }

    /** `observe(elem)`: adds `elem` to the targets and registers the instance
        in its own subclass's registry (a no-op when already there). */
    method Observe(elem: Element)
      requires Valid()
      modifies this, cls`instances
      ensures Valid()
      ensures targets == old(targets) + {elem}
      ensures this in cls.instances
      ensures cls.instances == Added(old(cls.instances), this)
    {
      targets := targets + {elem};
      cls.instances := Added(cls.instances, this);
    }

    /** `unobserve(elem)`: removes `elem` from the targets and deregisters the
        instance once it observes nothing. */
    method Unobserve(elem: Element)
      requires Valid()
      modifies this, cls`instances
      ensures Valid()
      ensures targets == old(targets) - {elem}
      ensures this in cls.instances <==> targets != {}
      ensures cls.instances == if targets == {} then Without(old(cls.instances), this) else old(cls.instances)
    {
      targets := targets - {elem};
      if targets == {} {
        cls.instances := Without(cls.instances, this);
      }
    }

    /** `disconnect()`: unobserves every element observed on entry; afterwards
        the instance observes nothing and is not registered. */
    method Disconnect()
      requires Valid()
      modifies this, cls`instances
      ensures Valid()
      ensures targets == {} && this !in cls.instances
      ensures cls.instances == Without(old(cls.instances), this)
    {
      var pending := targets;
      while pending != {}
        invariant Valid()
        invariant targets == pending
        invariant cls.instances == if targets == {} then Without(old(cls.instances), this) else old(cls.instances)
        decreases |pending|
      {
        var elem :| elem in pending;
        Unobserve(elem);
        pending := pending - {elem};
      }
    }
  }

  /** Registered instances report exactly the options of the instances of the
      subclass that observe something: one record each, and no others. */
  lemma InstanceOptionsExact(c: ObserverClass)
    requires c.Valid()
    ensures |c.InstanceOptions()| == |set o | o in c.created && o.targets != {}|
    ensures forall o :: o in c.created && o.targets != {} ==> o.options in c.InstanceOptions()
    ensures forall k :: 0 <= k < |c.InstanceOptions()| ==>
      exists o :: o in c.created && o.targets != {} && c.InstanceOptions()[k] == o.options
  {
    assert (set o | o in c.created && o.targets != {}) == (set o | o in c.instances);
    DistinctCardinality(c.instances);
    forall o | o in c.created && o.targets != {}
      ensures o.options in c.InstanceOptions()
    {
      var i :| 0 <= i < |c.instances| && c.instances[i] == o;
      assert c.InstanceOptions()[i] == o.options;
    }
  }

  /** The instances a sequence of callback invocations went to. */
  function Notified(calls: seq<Notification>): set<LayoutObserver> {
    set n | n in calls :: n.observer
  }

  /** A run notifies every instance that has a callback and observes `elem`,
      and no other. */
  lemma {:induction false} NotificationsReachAll(obs: seq<LayoutObserver>, elem: Element, payload: Payload)
    ensures forall o :: o in obs ==>
      (o in Notified(Notifications(obs, elem, payload)) <==> o.callback.Some? && elem in o.targets)
  {
    if obs != [] {
      var init, last := obs[..|obs| - 1], obs[|obs| - 1];
      assert obs == init + [last];
      NotificationsReachAll(init, elem, payload);
      var before := Notifications(init, elem, payload);
      var tail := if last.callback.Some? && elem in last.targets
        then [Notification(last.callback.value, [Entry(elem, payload)], last)] else [];
      assert Notifications(obs, elem, payload) == before + tail;
      assert Notified(before + tail) == Notified(before) + Notified(tail);
    }
  }

  /** A run over a registry holding one instance that observes `elem` and has
      a callback notifies that instance alone. */
  lemma NotificationsOfOne(o: LayoutObserver, elem: Element, payload: Payload)
    requires o.callback.Some? && elem in o.targets
    ensures Notifications([o], elem, payload) == [Notification(o.callback.value, [Entry(elem, payload)], o)]
  {
    assert [o][..0] == [];
  }

  /** A run notifies each instance at most once, as the registry holds it at
      most once. */
  lemma {:induction false} NotificationsOncePerInstance(obs: seq<LayoutObserver>, elem: Element, payload: Payload)
    requires Distinct(obs)
    ensures forall i, j :: 0 <= i < j < |Notifications(obs, elem, payload)| ==>
      Notifications(obs, elem, payload)[i].observer != Notifications(obs, elem, payload)[j].observer
  {
    if obs != [] {
      var init := obs[..|obs| - 1];
      assert Distinct(init);
      NotificationsOncePerInstance(init, elem, payload);
      assert obs[|obs| - 1] !in init;
      var before := Notifications(init, elem, payload);
      var r := Notifications(obs, elem, payload);
      assert forall i :: 0 <= i < |before| ==> before[i].observer in init;
      assert r[..|before|] == before;
      assert |r| > |before| ==> |r| == |before| + 1 && r[|before|].observer == obs[|obs| - 1];
    }
  }

  /** The registries of the two subclasses never share an instance: each
      instance joins only the registry of the subclass that constructed it. */
  lemma RegistriesDisjoint(resize: ObserverClass, intersection: ObserverClass)
    requires resize.Valid() && intersection.Valid()
    requires resize.kind == ResizeKind && intersection.kind == IntersectionKind
    ensures forall o :: o in resize.instances ==> o !in intersection.instances
  {
  }
}
