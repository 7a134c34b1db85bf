/** The per-core and per-stick sections of the monitor's once-a-second
    refresh. The operating system's readings arrive as parameters: the
    per-core percentages, and the total and used memory in bytes. */
module Monitor {
  import opened Basics
  import opened Display
  import opened Layout
  import opened Sticks

  const CorePrefix: string := "Core"
  const StickPrefix: string := "RAM Stick"

  class ResourceMonitor {
    /** The CPU tab's layout of per-core rows. */
    const cpuCores: RowLayout
    /** The Memory tab's layout of per-stick rows. */
    const memSticks: RowLayout

    /** Both layouts are separate, hold label/bar pairs named for their
        indices, and every row they hold has been written. */
    ghost predicate Valid()
      reads this, cpuCores, memSticks
    {
      cpuCores != memSticks &&
      cpuCores.Paired(CorePrefix) && AllWritten(cpuCores.Rows()) &&
      memSticks.Paired(StickPrefix) && AllWritten(memSticks.Rows())
    }

    constructor ()
      ensures Valid() && fresh(cpuCores) && fresh(memSticks)
      ensures cpuCores.Rows() == [] && memSticks.Rows() == []
    {
      cpuCores := new RowLayout();
      memSticks := new RowLayout();
    }

    /** Makes sure `layout` has a row `i`, appending a fresh label/bar pair
        named for `i` when `i` is past its last row. The loops call it with
        `i` at most one past the last row. */
    static method EnsureRow(layout: RowLayout, prefix: string, i: nat)
      requires layout.Paired(prefix) && i <= layout.Count() / 2
      modifies layout
      ensures layout.Paired(prefix) && i < layout.Count() / 2
      ensures old(i >= layout.Count() / 2) ==>
                layout.Rows() == old(layout.Rows()) + [Row(ResourceName(prefix, i), None, None)]
      ensures old(i < layout.Count() / 2) ==> layout.items == old(layout.items)
    {
      if i >= layout.Count() / 2 {
        RowsOfAppendPair(layout.items, ResourceName(prefix, i));
        layout.AddWidget(Label(ResourceName(prefix, i), None));
        layout.AddWidget(Bar(None));
      }
    }

    /** The CPU section: one row per core, `Core i` showing the `i`-th
        percentage. Rows for cores past the end of `cpuPercent` stay. */
    method UpdateCores(cpuPercent: seq<real>)
      requires Valid()
      requires forall k :: 0 <= k < |cpuPercent| ==> IsPercent(cpuPercent[k])
      modifies cpuCores
      ensures Valid()
      ensures cpuCores.Rows() == Reconciled(old(cpuCores.Rows()), CorePrefix, cpuPercent)
      ensures |cpuCores.Rows()| == Max(|old(cpuCores.Rows())|, |cpuPercent|)
    {
      ghost var before := cpuCores.Rows();
      var i := 0;
      while i < |cpuPercent|
        invariant 0 <= i <= |cpuPercent|
        invariant cpuCores.Paired(CorePrefix)
        invariant i <= cpuCores.Count() / 2
        invariant cpuCores.Rows() == Reconciled(before, CorePrefix, cpuPercent[..i])
      {
        ghost var pre := cpuCores.Rows();
        StepShape(pre, CorePrefix, i, cpuPercent[i]);
        ReconciledNext(before, CorePrefix, cpuPercent, i);
        EnsureRow(cpuCores, CorePrefix, i);
        cpuCores.UpdateResource(i, cpuPercent[i], ResourceName(CorePrefix, i));
        assert cpuCores.Rows() == Step(pre, ResourceName(CorePrefix, i), i, cpuPercent[i]);
        i := i + 1;
      }
      assert cpuPercent[..i] == cpuPercent;
      ReconciledGrows(before, CorePrefix, cpuPercent);
      ReconciledShape(before, CorePrefix, cpuPercent);
    }

    /** The Memory section: `StickCount(total)` rows, `RAM Stick i` showing
        how full stick `i` is as the used bytes are poured in from the left
        through the running counter `usedMemory`. */
    method UpdateSticks(total: nat, used: nat)
      requires Valid()
      modifies memSticks
      ensures Valid()
      ensures memSticks.Rows()
              == Reconciled(old(memSticks.Rows()), StickPrefix, StickUsages(total, used, StickSize))
      ensures |memSticks.Rows()| == Max(|old(memSticks.Rows())|, StickCount(total, StickSize))
    {
      ghost var before := memSticks.Rows();
      ghost var usages := StickUsages(total, used, StickSize);
      var usedMemory: int := used;
      var numSticks := StickCount(total, StickSize);
      var i := 0;
      while i < numSticks
        invariant 0 <= i <= numSticks == |usages|
        invariant usedMemory == Remaining(used, StickSize, i)
        invariant memSticks.Paired(StickPrefix)
        invariant i <= memSticks.Count() / 2
        invariant memSticks.Rows() == Reconciled(before, StickPrefix, usages[..i])
      {
        ghost var pre := memSticks.Rows();
        StepShape(pre, StickPrefix, i, usages[i]);
        ReconciledNext(before, StickPrefix, usages, i);
        EnsureRow(memSticks, StickPrefix, i);
        var stickUsage := StickUsage(usedMemory, StickSize);
        memSticks.UpdateResource(i, stickUsage, ResourceName(StickPrefix, i));
        assert memSticks.Rows() == Step(pre, ResourceName(StickPrefix, i), i, usages[i]);
        RemainingStep(used, StickSize, i);
        usedMemory := Max(0, usedMemory - StickSize);
        i := i + 1;
      }
      assert usages[..i] == usages;
      ReconciledGrows(before, StickPrefix, usages);
      ReconciledShape(before, StickPrefix, usages);
    }

    /** One tick of `update_stats` over the CPU and Memory sections. */
    method UpdateStats(cpuPercent: seq<real>, total: nat, used: nat)
      requires Valid()
      requires forall k :: 0 <= k < |cpuPercent| ==> IsPercent(cpuPercent[k])
      modifies cpuCores, memSticks
      ensures Valid()
      ensures cpuCores.Rows() == Reconciled(old(cpuCores.Rows()), CorePrefix, cpuPercent)
      ensures memSticks.Rows()
              == Reconciled(old(memSticks.Rows()), StickPrefix, StickUsages(total, used, StickSize))
    {
      UpdateCores(cpuPercent);
      UpdateSticks(total, used);
    }
  }
}
