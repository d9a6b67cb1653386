/** Executing a rotation on disk: what the two files hold at every intermediate step. */
module RotationDisk {
  import opened Trees
  import opened ByteStrings
  import opened Rotations

  /** The database file and the copy set aside, if there is one. */
  datatype Files = Files(main: Bytes, copy: Option<Bytes>)

  /**
   * Nothing is lost: one of the files is the complete original, or the main file is the
   * complete new content and the copy still holds the dropped prefix.
   */
  predicate Recoverable(d: Files, original: Bytes, plan: Plan)
    requires plan.RotationPlan? && plan.cutoffEnd <= |original|
  {
    || d.main == original
    || d.copy == Some(original)
    || (d.main == plan.newContent && d.copy.Some? && original[..plan.cutoffEnd] <= d.copy.value)
  }

  class Disk {
    var main: Bytes
    var copy: Option<Bytes>
    /** Every state the files have been in, oldest first. */
    ghost var trace: seq<Files>

    ghost predicate Valid()
      reads this
    {
      trace != [] && trace[|trace| - 1] == Files(main, copy)
    }

    constructor (main: Bytes)
      ensures Valid() && this.main == main && copy == None && trace == [Files(main, None)]
    {
      this.main, copy := main, None;
      trace := [Files(main, None)];
    }

    method SetMain(main: Bytes)
      requires Valid()
      modifies this
      ensures Valid() && this.main == main && copy == old(copy)
      ensures trace == old(trace) + [Files(main, copy)]
    {
      this.main := main;
      trace := trace + [Files(main, copy)];
    }

    method SetCopy(copy: Bytes)
      requires Valid()
      modifies this
      ensures Valid() && main == old(main) && this.copy == Some(copy)
      ensures trace == old(trace) + [Files(main, Some(copy))]
    {
      this.copy := Some(copy);
      trace := trace + [Files(main, Some(copy))];
    }

    /** Copies the main file aside, in pieces of any size. */
    method CopyAside(ghost plan: Plan)
      requires Valid() && plan.RotationPlan? && plan.cutoffEnd <= |main|
      modifies this
      ensures Valid() && main == old(main) && copy == Some(main) && old(trace) <= trace
      ensures forall i :: |old(trace)| <= i < |trace| ==> Recoverable(trace[i], main, plan)
    {
      SetCopy([]);
      var done := 0;
      while done < |main|
        invariant Valid() && main == old(main) && 0 <= done <= |main| && copy == Some(main[..done])
        invariant old(trace) <= trace
        invariant forall i :: |old(trace)| <= i < |trace| ==> Recoverable(trace[i], main, plan)
      {
        var written :| 0 < written <= |main| - done;
        done := done + written;
        SetCopy(main[..done]);
      }
      assert main[..done] == main;
    }

    /** replace_content: truncates, then writes the view until it is used up. */
    method ReplaceContent(data: Bytes, ghost original: Bytes, ghost plan: Plan)
      requires Valid() && copy == Some(original)
      requires plan.RotationPlan? && plan.cutoffEnd <= |original|
      modifies this
      ensures Valid() && main == data && copy == Some(original) && old(trace) <= trace
      ensures forall i :: |old(trace)| <= i < |trace| ==> Recoverable(trace[i], original, plan)
    {
      SetMain([]);
      var view := data;
      assert main + view == data;
      while view != []
        invariant Valid() && copy == Some(original) && main + view == data
        invariant old(trace) <= trace
        invariant forall i :: |old(trace)| <= i < |trace| ==> Recoverable(trace[i], original, plan)
        decreases |view|
      {
        var written :| 0 < written <= |view|;
        assert main + view[..written] + view[written..] == main + view;
        SetMain(main + view[..written]);
        view := view[written..];
      }
    }

    /** execute_rotation: copy aside, rewrite in place, trim the copy. */
    method Execute(plan: Plan)
      requires Valid() && copy == None && plan.RotationPlan? && plan.cutoffEnd <= |main|
      modifies this
      ensures Valid() && main == plan.newContent && copy == Some(old(main)[..plan.cutoffEnd])
      ensures old(trace) <= trace
      ensures forall i :: |old(trace)| <= i < |trace| ==> Recoverable(trace[i], old(main), plan)
    {
      ghost var original := main;
      CopyAside(plan);
      ghost var copied := trace;
      ReplaceContent(plan.newContent, original, plan);
      ghost var rewritten := trace;
      SetCopy(copy.value[..plan.cutoffEnd]);
      forall i | |old(trace)| <= i < |trace| ensures Recoverable(trace[i], original, plan) {
        if i < |copied| {
          assert trace[i] == copied[i];
        } else if i < |rewritten| {
          assert trace[i] == rewritten[i];
        }
      }
    }
  }
}
