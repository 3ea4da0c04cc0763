/** The record transformer: resolved patches become flat export records, one
    per non-null build-variant entry of every patch that resolved and is not
    a commit-queue patch. */
module Transform {
  import opened Records

  /** The strings of `parts` with `sep` between neighbours (Rust's `join`). */
  function Join(parts: seq<string>, sep: string): string
    decreases |parts|
  {
    if |parts| == 0 then ""
    else if |parts| == 1 then parts[0]
    else parts[0] + sep + Join(parts[1..], sep)
  }

  /** The number of times `c` occurs in `s`. */
  function Occurrences(s: string, c: char): nat
    decreases |s|
  {
    if s == [] then 0 else (if s[0] == c then 1 else 0) + Occurrences(s[1..], c)
  }

  lemma {:induction false} OccurrencesConcat(a: string, b: string, c: char)
    ensures Occurrences(a + b, c) == Occurrences(a, c) + Occurrences(b, c)
    decreases |a|
  {
    if a == [] {
      assert a + b == b;
    } else {
      assert (a + b)[1..] == a[1..] + b;
      OccurrencesConcat(a[1..], b, c);
    }
  }

  lemma {:induction false} OccurrencesAbsent(s: string, c: char)
    requires c !in s
    ensures Occurrences(s, c) == 0
    decreases |s|
  {
    if s != [] {
      assert s == [s[0]] + s[1..];
      OccurrencesAbsent(s[1..], c);
    }
  }

  /** For a non-empty task list in which no task name contains the
      separator, the `tasks` column holds exactly one separator fewer than
      there are tasks, so `n_tasks` can be recovered from it. */
  lemma {:induction false} JoinSeparatorCount(parts: seq<string>, c: char)
    requires parts != []
    requires forall i | 0 <= i < |parts| :: c !in parts[i]
    ensures Occurrences(Join(parts, [c]), c) == |parts| - 1
    decreases |parts|
  {
    OccurrencesAbsent(parts[0], c);
    if |parts| > 1 {
      JoinSeparatorCount(parts[1..], c);
      OccurrencesConcat(parts[0] + [c], Join(parts[1..], [c]), c);
      OccurrencesConcat(parts[0], [c], c);
      assert Occurrences([c], c) == 1 by {
        assert [c][1..] == [];
      }
    }
  }

  /** The alias column: the patch alias, or the empty string when absent. */
  function AliasOrEmpty(alias: Option<string>): string {
    match alias
    case Some(a) => a
    case None => ""
  }

  /** The record for build variant `vt` of patch `p`. */
  function MakeRecord(p: Patch, vt: VariantTask): Record {
    Record(p.id, p.author, AliasOrEmpty(p.alias), vt.name, Join(vt.tasks, TASK_SEPARATOR), |vt.tasks|)
  }

  /** A patch is left out of the export when the commit queue submitted it. */
  predicate IsCommitQueue(p: Patch) {
    p.alias == Some(COMMIT_QUEUE_ALIAS)
  }

  /** The records of the variant entries `vts` of patch `p`, in entry order. */
  function VariantRecords(p: Patch, vts: seq<Option<VariantTask>>): seq<Record>
    decreases |vts|
  {
    if vts == [] then []
    else
      VariantRecords(p, vts[..|vts| - 1]) +
      match vts[|vts| - 1]
      case None => []
      case Some(vt) => [MakeRecord(p, vt)]
  }

  /** What one lookup result contributes to the export. */
  function PatchRecords(r: PatchResult): seq<Record> {
    match r
    case Err(_) => []
    case Ok(p) => if IsCommitQueue(p) then [] else VariantRecords(p, p.variantsTasks)
  }

  /** The records of a whole batch of lookup results, in result order. */
  function Transformed(rs: seq<PatchResult>): seq<Record>
    decreases |rs|
  {
    if rs == [] then [] else Transformed(rs[..|rs| - 1]) + PatchRecords(rs[|rs| - 1])
  }

  /** The positions of the non-null entries of `vts`: increasing, each a
      non-null entry, and every non-null entry listed. */
  function SomeIndices<T>(vts: seq<Option<T>>): (ix: seq<nat>)
    ensures forall j | 0 <= j < |ix| :: ix[j] < |vts| && vts[ix[j]].Some?
    ensures forall j, j' | 0 <= j < j' < |ix| :: ix[j] < ix[j']
    ensures forall i | 0 <= i < |vts| && vts[i].Some? :: i in ix
    decreases |vts|
  {
    if vts == [] then []
    else SomeIndices(vts[..|vts| - 1]) + (if vts[|vts| - 1].Some? then [|vts| - 1] else [])
  }

  /** The records of a patch are exactly one record per non-null variant
      entry, in entry order, with the null entries skipped. */
  lemma {:induction false} VariantRecordsExact(p: Patch, vts: seq<Option<VariantTask>>)
    ensures |VariantRecords(p, vts)| == |SomeIndices(vts)|
    ensures forall j | 0 <= j < |SomeIndices(vts)| ::
      VariantRecords(p, vts)[j] == MakeRecord(p, vts[SomeIndices(vts)[j]].value)
    decreases |vts|
  {
    if vts != [] {
      var init := vts[..|vts| - 1];
      VariantRecordsExact(p, init);
      forall j | 0 <= j < |SomeIndices(init)|
        ensures vts[SomeIndices(init)[j]] == init[SomeIndices(init)[j]]
      {
      }
    }
  }

  /** Record-count law: a resolved patch that is not a commit-queue patch
      yields as many records as it has non-null variant entries, and each
      carries the patch's id, author and alias (empty when absent) and the
      variant's name, joined tasks and task count. */
  lemma PatchRecordsLaw(p: Patch)
    requires !IsCommitQueue(p)
    ensures |PatchRecords(Ok(p))| == |SomeIndices(p.variantsTasks)|
    ensures forall j | 0 <= j < |PatchRecords(Ok(p))| ::
      var vt := p.variantsTasks[SomeIndices(p.variantsTasks)[j]].value;
      && PatchRecords(Ok(p))[j].id == p.id
      && PatchRecords(Ok(p))[j].author == p.author
      && PatchRecords(Ok(p))[j].alias == (if p.alias.Some? then p.alias.value else "")
      && PatchRecords(Ok(p))[j].buildVariant == vt.name
      && PatchRecords(Ok(p))[j].tasks == Join(vt.tasks, "|")
      && PatchRecords(Ok(p))[j].nTasks == |vt.tasks|
  {
    VariantRecordsExact(p, p.variantsTasks);
  }

  /** The transform of a concatenation is the concatenation of the
      transforms: records keep the order of the results they come from. */
  lemma {:induction false} TransformedConcat(a: seq<PatchResult>, b: seq<PatchResult>)
    ensures Transformed(a + b) == Transformed(a) + Transformed(b)
    decreases |b|
  {
    if b == [] {
      assert a + b == a;
    } else {
      var init, last := b[..|b| - 1], b[|b| - 1];
      var ab := a + b;
      assert ab[..|ab| - 1] == a + init;
      assert ab[|ab| - 1] == last;
      var x, y, z := Transformed(a), Transformed(init), PatchRecords(last);
      assert Transformed(b) == y + z;
      assert Transformed(ab) == Transformed(a + init) + z;
      TransformedConcat(a, init);
      assert x + y + z == x + (y + z);
    }
  }

  /** Exclusion and failure isolation: a failed lookup or a commit-queue
      patch contributes no record, however many variants it has, and leaves
      the records of its neighbours untouched. */
  lemma ExcludedContributeNothing(before: seq<PatchResult>, r: PatchResult, after: seq<PatchResult>)
    requires r.Err? || IsCommitQueue(r.value)
    ensures Transformed(before + [r] + after) == Transformed(before) + Transformed(after)
  {
    var br := before + [r];
    assert PatchRecords(r) == [];
    assert br[..|br| - 1] == before && br[|br| - 1] == r;
    assert Transformed(br) == Transformed(before) + PatchRecords(r);
    assert Transformed(br) == Transformed(before);
    TransformedConcat(br, after);
  }

  /** Every exported record comes from a non-null variant entry of a
      resolved, non-commit-queue patch of the batch, with its columns taken
      from that patch and that variant. */
  lemma {:induction false} RecordOrigin(rs: seq<PatchResult>, k: nat)
    requires k < |Transformed(rs)|
    ensures exists i, j ::
      && 0 <= i < |rs| && rs[i].Ok? && !IsCommitQueue(rs[i].value)
      && 0 <= j < |rs[i].value.variantsTasks| && rs[i].value.variantsTasks[j].Some?
      && Transformed(rs)[k] == MakeRecord(rs[i].value, rs[i].value.variantsTasks[j].value)
    decreases |rs|
  {
    var init := rs[..|rs| - 1];
    var last := rs[|rs| - 1];
    if k < |Transformed(init)| {
      RecordOrigin(init, k);
      var i, j :| && 0 <= i < |init| && init[i].Ok? && !IsCommitQueue(init[i].value)
        && 0 <= j < |init[i].value.variantsTasks| && init[i].value.variantsTasks[j].Some?
        && Transformed(init)[k] == MakeRecord(init[i].value, init[i].value.variantsTasks[j].value);
      assert rs[i] == init[i];
    } else {
      var p := last.value;
      var m := k - |Transformed(init)|;
      VariantRecordsExact(p, p.variantsTasks);
      var j := SomeIndices(p.variantsTasks)[m];
      assert Transformed(rs)[k] == MakeRecord(rs[|rs| - 1].value, rs[|rs| - 1].value.variantsTasks[j].value);
    }
  }

  /** `process_patches`: walk the lookup results and, for every resolved
      patch that is not a commit-queue patch, push one record per non-null
      variant entry. */
  method ProcessPatches(patches: seq<PatchResult>) returns (records: seq<Record>)
    ensures records == Transformed(patches)
  {
    records := [];
    for n := 0 to |patches|
      invariant records == Transformed(patches[..n])
    {
      assert patches[..n + 1][..n] == patches[..n];
      match patches[n]
      case Ok(patch) =>
        if patch.alias == Some(COMMIT_QUEUE_ALIAS) {
          continue;
        }
        var vts := patch.variantsTasks;
        for m := 0 to |vts|
          invariant records == Transformed(patches[..n]) + VariantRecords(patch, vts[..m])
        {
          assert vts[..m + 1][..m] == vts[..m];
          match vts[m]
          case Some(vt) =>
            records := records + [MakeRecord(patch, vt)];
          case None =>
        }
        assert vts[..|vts|] == vts;
      case Err(_) =>
    }
    assert patches[..|patches|] == patches;
  }

  /** Worked example: a commit-queue patch with
      two variants yields nothing, and a patch with an empty alias and the
      variants linux ["t1", "t2"] and windows ["t3"] yields two rows. */
  lemma TransformScenario()
    ensures Transformed([
      Ok(Patch("a", "", "ann", Some("__commit_queue"),
        [Some(VariantTask("linux", ["t1"])), Some(VariantTask("windows", ["t2"]))])),
      Ok(Patch("b", "", "bob", Some(""),
        [Some(VariantTask("linux", ["t1", "t2"])), Some(VariantTask("windows", ["t3"]))]))])
      == [Record("b", "bob", "", "linux", "t1|t2", 2), Record("b", "bob", "", "windows", "t3", 1)]
  {
    var a := Ok(Patch("a", "", "ann", Some("__commit_queue"),
      [Some(VariantTask("linux", ["t1"])), Some(VariantTask("windows", ["t2"]))]));
    var bvts := [Some(VariantTask("linux", ["t1", "t2"])), Some(VariantTask("windows", ["t3"]))];
    var b := Ok(Patch("b", "", "bob", Some(""), bvts));
    assert [a, b][..1] == [a];
    assert [a][..0] == [];
    assert PatchRecords(a) == [];
    assert bvts[..1] == [bvts[0]] && bvts[..1][..0] == [];
    assert Join(["t1", "t2"], "|") == "t1|t2" by {
      assert ["t1", "t2"][1..] == ["t2"];
    }
    assert VariantRecords(b.value, bvts[..1]) == [Record("b", "bob", "", "linux", "t1|t2", 2)];
    assert PatchRecords(b) == [Record("b", "bob", "", "linux", "t1|t2", 2), Record("b", "bob", "", "windows", "t3", 1)];
  }
}
