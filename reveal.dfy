/**
 * The one-shot reveal used by the About, Services, Projects, Testimonials and
 * Contact sections: an IntersectionObserver watches the section's container, and
 * the first time it intersects the viewport an animation class is added and the
 * container is no longer watched.
 */
module Reveal {

  /** The sections that carry the reveal. */
  datatype Section = About | Services | Projects | Testimonials | Contact

  /** The animation class each section's callback adds. */
  function RevealClass(s: Section): string {
    if s == About then "animate-fadeInUp" else "animate-fadeIn"
  }

  /** The observer of one section's container and that container's class list. */
  class RevealTrigger {
    /** The container's class list. */
    var classes: set<string>
    /** The class the callback adds. */
    const revealClass: string
    /** Whether the observer still watches the container. */
    var observing: bool
    /** How many times the callback has added the class. */
    ghost var revealCount: nat

    /** The class is added at most once, and only while no longer observed. */
    ghost predicate Valid()
      reads this
    {
      revealCount <= 1 && (observing ==> revealCount == 0)
    }

    /**
     * The mount effect: the observer is created and starts watching the container when
     * the ref is attached (`refAttached`); the container's initial classes are `initial`.
     */
    constructor(section: Section, initial: set<string>, refAttached: bool)
      ensures Valid()
      ensures classes == initial && revealClass == RevealClass(section)
      ensures observing == refAttached && revealCount == 0
    {
      classes := initial;
      revealClass := RevealClass(section);
      observing := refAttached;
      revealCount := 0;
    }

    /**
     * The observer reports the container with `isIntersecting`. Only a watched container
     * is reported; an intersecting report adds the class and stops the watch.
     */
    method Intersect(isIntersecting: bool)
      requires Valid()
      modifies this`classes, this`observing, this`revealCount
      ensures Valid()
      ensures !(old(observing) && isIntersecting) ==> unchanged(this)
      ensures old(observing) && isIntersecting ==>
        classes == old(classes) + {revealClass} && !observing && revealCount == 1
      ensures old(classes) <= classes
    {
      if observing && isIntersecting {
        classes := classes + {revealClass};
        observing := false;
        revealCount := revealCount + 1;
      }
    }

    /**
     * The effect's cleanup: `unobserve` is called only when the ref is still set
     * (`refPresent`); the class list is never touched.
     */
    method Teardown(refPresent: bool)
      requires Valid()
      modifies this`observing
      ensures Valid()
      ensures observing == (old(observing) && !refPresent)
      ensures classes == old(classes) && revealCount == old(revealCount)
    {
      if refPresent {
        observing := false;
      }
    }
  }

  /** After the first intersecting report, later reports change nothing. */
  method RevealOnceScenario()
  {
    var r := new RevealTrigger(About, {"opacity-0"}, true);
    r.Intersect(false);
    assert r.observing && r.classes == {"opacity-0"};
    r.Intersect(true);
    assert r.classes == {"opacity-0", "animate-fadeInUp"} && !r.observing;
    r.Intersect(true);
    r.Intersect(false);
    assert r.classes == {"opacity-0", "animate-fadeInUp"} && r.revealCount == 1;
  }

  /** Tearing down before any intersection never reveals. */
  method TeardownFirstScenario()
  {
    var r := new RevealTrigger(Services, {"opacity-0"}, true);
    r.Teardown(true);
    r.Intersect(true);
    assert r.classes == {"opacity-0"} && r.revealCount == 0;
  }
}
