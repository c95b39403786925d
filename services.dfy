/**
 * The service spotlight of `ServicesSection`: one of four services is active; an
 * interval created once on mount rotates the spotlight, and a click on a service's
 * tab jumps to it without touching the interval.
 */
module Services {
  import opened Circular

  /** The titles of the four services, in tab order. */
  const ServiceTitles: seq<string> := [
    "Jasa Pembuatan Sistem Akuntansi",
    "Penyusunan Laporan Keuangan Bulanan dan Tahunan",
    "Penyusunan dan Pembukuan General Ledger",
    "Layanan Perpajakan Lengkap"
  ]

  /** `services.length`. */
  const ServiceCount := |ServiceTitles|

  /** The rotation period in milliseconds; timers are events here, so it is documentation. */
  const RotationMs := 5000

  /** The spotlight component's state slot and its interval, as fields. */
  class ServicesSection {
    /** The `activeService` state slot. */
    var activeService: int
    /** Whether the rotation interval is still scheduled. */
    var intervalLive: bool
    /** How many rotation intervals have been created. */
    var intervalArms: nat
    /** The service most recently chosen by mount or by a tab click. */
    ghost var anchor: int
    /** Rotation ticks since then. */
    ghost var ticks: nat

    /**
     * The panel index is a valid service index, one interval was ever created, and
     * the spotlight is the last chosen service moved forward once per tick since.
     */
    ghost predicate Valid()
      reads this
    {
      0 <= anchor < ServiceCount
      && activeService == Advance(anchor, ticks, ServiceCount)
      && intervalArms == 1
    }

    /** Mount: the first service and one interval. */
    constructor()
      ensures Valid()
      ensures activeService == 0 && intervalLive
    {
      activeService := 0;
      intervalLive := true;
      intervalArms := 1;
      anchor := 0;
      ticks := 0;
    }

    /** The interval fires: `(prev + 1) % services.length`. */
    method IntervalFired()
      requires Valid() && intervalLive
      modifies this`activeService, this`ticks
      ensures Valid()
      ensures activeService == Next(old(activeService), ServiceCount)
      ensures old(activeService) == ServiceCount - 1 ==> activeService == 0
      ensures ticks == old(ticks) + 1
    {
      activeService := Next(activeService, ServiceCount);
      ticks := ticks + 1;
    }

    /** A click on tab `i` spotlights service `i`; the interval keeps running unchanged. */
    method SelectTab(i: int)
      requires Valid()
      requires 0 <= i < ServiceCount
      modifies this`activeService, this`anchor, this`ticks
      ensures Valid()
      ensures activeService == i
      ensures anchor == i && ticks == 0
    {
      activeService := i;
      anchor := i;
      ticks := 0;
    }

    /** Unmount: the effect's cleanup clears the interval. */
    method Unmount()
      requires Valid()
      modifies this`intervalLive
      ensures Valid()
      ensures !intervalLive
    {
      intervalLive := false;
    }

    /** Tab `i` is highlighted when it is the active service. */
    predicate TabHighlighted(i: int)
      reads this
    {
      Highlighted(activeService, i)
    }

    /** The title shown in the details panel, `services[activeService].title`. */
    function ActiveTitle(): (t: string)
      reads this
      requires Valid()
      ensures t in ServiceTitles
    {
      ServiceTitles[activeService]
    }
  }

  /**
   * The spotlight is always the last chosen service plus the ticks since, modulo four;
   * in particular it returns to that service every four ticks.
   */
  lemma SpotlightIsOffset(c: ServicesSection)
    requires c.Valid()
    ensures c.activeService == (c.anchor + c.ticks) % ServiceCount
    ensures Advance(c.anchor, c.ticks + ServiceCount, ServiceCount) == c.activeService
  {
    AdvanceIsOffset(c.anchor, c.ticks, ServiceCount);
    AdvanceIsOffset(c.anchor, c.ticks + ServiceCount, ServiceCount);
    RemainderOfMultiplePlus((c.anchor + c.ticks) / ServiceCount + 1, ServiceCount, (c.anchor + c.ticks) % ServiceCount);
  }

  /** Exactly one tab is highlighted, and the details panel shows that tab's service. */
  lemma OneTabHighlighted(c: ServicesSection)
    requires c.Valid()
    ensures (set i | 0 <= i < ServiceCount && c.TabHighlighted(i)) == {c.activeService}
    ensures c.ActiveTitle() == ServiceTitles[c.activeService]
  {
    ExactlyOneHighlighted(c.activeService, ServiceCount);
    assert (set i | 0 <= i < ServiceCount && c.TabHighlighted(i))
        == (set i | 0 <= i < ServiceCount && Highlighted(c.activeService, i));
  }

  /** A click does not create an interval and the rotation continues from the clicked tab. */
  method ClickThenRotateScenario()
  {
    var c := new ServicesSection();
    c.IntervalFired();
    c.IntervalFired();
    c.IntervalFired();
    c.IntervalFired();
    assert c.activeService == 0;
    c.SelectTab(2);
    assert c.intervalArms == 1;
    c.IntervalFired();
    c.IntervalFired();
    assert c.activeService == 0;
    c.Unmount();
  }
}
