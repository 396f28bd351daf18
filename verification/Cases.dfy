// Creating cases: a step that counts and a step that inserts, interleaved freely among
// any number of creators, under a unique index on the case number.
module Cases {

  import opened Options
  import opened CaseNumbers

  type CreatorId = nat

  datatype CaseRow = CaseRow(org: OrgId, number: string, deleted: bool)

  // A creator between its two steps holds the number it is going to insert.
  datatype Pending = Pending(org: OrgId, number: string)

  // Rows stand in the order in which they were committed.
  datatype CaseState = CaseState(rows: seq<CaseRow>, pending: map<CreatorId, Pending>)

  datatype Step =
    | Count(creator: CreatorId, org: OrgId)
    | Insert(creator: CreatorId)
    | Abandon(creator: CreatorId)
    | SoftDelete(index: nat)

  // Counting takes deleted rows in.
  function CountOf(rows: seq<CaseRow>, org: OrgId): (n: nat)
    ensures n <= |rows|
  {
    if rows == [] then 0
    else CountOf(rows[..|rows| - 1], org) + (if rows[|rows| - 1].org == org then 1 else 0)
  }

  predicate Taken(rows: seq<CaseRow>, number: string) {
    exists i :: 0 <= i < |rows| && rows[i].number == number
  }

  function NextNumber(rows: seq<CaseRow>, org: OrgId): string {
    Format(org, CountOf(rows, org) + 1)
  }

  function Deleted(rows: seq<CaseRow>, index: nat): seq<CaseRow> {
    if index < |rows| then rows[index := rows[index].(deleted := true)] else rows
  }

  function Apply(s: CaseState, step: Step): CaseState {
    match step
    case Count(c, org) => s.(pending := s.pending[c := Pending(org, NextNumber(s.rows, org))])
    case Insert(c) =>
      if c !in s.pending then s
      else
        var p := s.pending[c];
        CaseState(if Taken(s.rows, p.number) then s.rows else s.rows + [CaseRow(p.org, p.number, false)],
                  s.pending - {c})
    case Abandon(c) => s.(pending := s.pending - {c})
    case SoftDelete(i) => s.(rows := Deleted(s.rows, i))
  }

  // ---- The numbers of one organisation ----

  // In commit order.
  function Numbers(rows: seq<CaseRow>, org: OrgId): (r: seq<string>)
    ensures |r| == CountOf(rows, org)
  {
    if rows == [] then []
    else Numbers(rows[..|rows| - 1], org) + (if rows[|rows| - 1].org == org then [rows[|rows| - 1].number] else [])
  }

  lemma NumbersSnoc(rows: seq<CaseRow>, row: CaseRow, org: OrgId)
    ensures Numbers(rows + [row], org) == Numbers(rows, org) + (if row.org == org then [row.number] else [])
  {
    assert (rows + [row])[..|rows|] == rows;
  }

  lemma {:induction false} NumberInRows(rows: seq<CaseRow>, org: OrgId, k: nat)
    requires k < CountOf(rows, org)
    ensures exists i :: 0 <= i < |rows| && rows[i].org == org && rows[i].number == Numbers(rows, org)[k]
  {
    var init := rows[..|rows| - 1];
    if k < CountOf(init, org) {
      NumberInRows(init, org, k);
      var i :| 0 <= i < |init| && init[i].org == org && init[i].number == Numbers(init, org)[k];
      assert rows[i] == init[i];
    } else {
      assert rows[|rows| - 1].number == Numbers(rows, org)[k];
    }
  }

  lemma {:induction false} RowInNumbers(rows: seq<CaseRow>, i: nat)
    requires i < |rows|
    ensures exists k :: 0 <= k < CountOf(rows, rows[i].org) && Numbers(rows, rows[i].org)[k] == rows[i].number
  {
    var init, org := rows[..|rows| - 1], rows[i].org;
    if i < |rows| - 1 {
      RowInNumbers(init, i);
      var k :| 0 <= k < CountOf(init, org) && Numbers(init, org)[k] == rows[i].number;
      assert Numbers(rows, org)[k] == rows[i].number;
    } else {
      assert Numbers(rows, org)[CountOf(init, org)] == rows[i].number;
    }
  }

  lemma {:induction false} DeletedNumbers(rows: seq<CaseRow>, index: nat, org: OrgId)
    ensures Numbers(Deleted(rows, index), org) == Numbers(rows, org)
    ensures CountOf(Deleted(rows, index), org) == CountOf(rows, org)
  {
    if rows != [] && index < |rows| {
      var last := |rows| - 1;
      var t := Deleted(rows, index);
      if index < last {
        DeletedNumbers(rows[..last], index, org);
        assert t[..last] == Deleted(rows[..last], index);
      } else {
        assert t[..last] == rows[..last];
      }
    }
  }

  // Soft deletion sets the flag of one row and keeps every row.
  lemma DeletedEffect(rows: seq<CaseRow>, index: nat)
    ensures |Deleted(rows, index)| == |rows|
    ensures forall i :: 0 <= i < |rows| ==>
              && Deleted(rows, index)[i].org == rows[i].org && Deleted(rows, index)[i].number == rows[i].number
              && (Deleted(rows, index)[i].deleted <==> rows[i].deleted || i == index)
  {
  }

  // The count is that of the organisation's rows, deleted ones included.
  lemma {:induction false} CountIs(rows: seq<CaseRow>, org: OrgId)
    ensures CountOf(rows, org) == |set i | 0 <= i < |rows| && rows[i].org == org|
  {
    var at := set i | 0 <= i < |rows| && rows[i].org == org;
    if rows != [] {
      var last := |rows| - 1;
      var init := rows[..last];
      CountIs(init, org);
      var before := set i | 0 <= i < |init| && init[i].org == org;
      assert at == before + if rows[last].org == org then {last} else {};
    } else {
      assert at == {};
    }
  }

  // ---- Runs ----

  datatype Run = Run(states: seq<CaseState>, steps: seq<Step>)

  const NoCases: CaseState := CaseState([], map[])

  predicate IsRun(r: Run) {
    && |r.states| == |r.steps| + 1
    && r.states[0] == NoCases
    && forall i :: 0 <= i < |r.steps| ==> r.states[i + 1] == Apply(r.states[i], r.steps[i])
  }

  function Extend(r: Run, step: Step): (e: Run)
    requires IsRun(r)
    ensures IsRun(e)
  {
    hide Apply;
    Run(r.states + [Apply(r.states[|r.steps|], step)], r.steps + [step])
  }

  // ---- What every step keeps ----

  // The organisation's numbers are 1, 2, ..., n in the order of their commits.
  ghost predicate Sequential(rows: seq<CaseRow>, org: OrgId) {
    forall k :: 0 <= k < CountOf(rows, org) ==> Numbers(rows, org)[k] == Format(org, k + 1)
  }

  ghost predicate Unique(rows: seq<CaseRow>) {
    forall i, j :: 0 <= i < j < |rows| ==> rows[i].number != rows[j].number
  }

  ghost predicate CountedAt(rows: seq<CaseRow>, p: Pending, m: nat) {
    m <= CountOf(rows, p.org) && p.number == Format(p.org, m + 1)
  }

  // A number in flight was counted when there were no more rows than now.
  ghost predicate WasCounted(rows: seq<CaseRow>, p: Pending) {
    exists m :: CountedAt(rows, p, m)
  }

  ghost predicate Inv(s: CaseState) {
    && (forall org :: Sequential(s.rows, org))
    && Unique(s.rows)
    && forall c :: c in s.pending ==> WasCounted(s.rows, s.pending[c])
  }

  // Inserting a number that was counted earlier either hits the index or continues the
  // sequence.
  lemma InsertSequential(rows: seq<CaseRow>, p: Pending, org: OrgId)
    requires Sequential(rows, org) && Sequential(rows, p.org) && WasCounted(rows, p) && !Taken(rows, p.number)
    ensures p.number == NextNumber(rows, p.org)
    ensures Sequential(rows + [CaseRow(p.org, p.number, false)], org)
  {
    hide Format, Numbers, CountOf;
    var m: nat :| CountedAt(rows, p, m);
    if m < CountOf(rows, p.org) {
      NumberInRows(rows, p.org, m);
      assert false;
    } else {
      NumbersSnoc(rows, CaseRow(p.org, p.number, false), org);
    }
  }

  lemma StillCounted(rows: seq<CaseRow>, later: seq<CaseRow>, p: Pending)
    requires WasCounted(rows, p) && CountOf(rows, p.org) <= CountOf(later, p.org)
    ensures WasCounted(later, p)
  {
    hide Format, CountOf;
    var m: nat :| CountedAt(rows, p, m);
    assert CountedAt(later, p, m);
  }

  lemma CountGrows(s: CaseState, step: Step, org: OrgId)
    ensures CountOf(s.rows, org) <= CountOf(Apply(s, step).rows, org)
  {
    hide Format, CountOf, Numbers;
    match step {
      case Insert(c) => if c in s.pending { NumbersSnoc(s.rows, CaseRow(s.pending[c].org, s.pending[c].number, false), org); }
      case SoftDelete(i) => DeletedNumbers(s.rows, i, org);
      case _ =>
    }
  }

  lemma StepSequential(s: CaseState, step: Step, org: OrgId)
    requires Inv(s)
    ensures Sequential(Apply(s, step).rows, org)
  {
    assert Sequential(s.rows, org);
    hide Format, CountOf, Numbers, Unique;
    match step {
      case Insert(c) =>
        if c in s.pending && !Taken(s.rows, s.pending[c].number) {
          InsertSequential(s.rows, s.pending[c], org);
        }
      case SoftDelete(i) => DeletedNumbers(s.rows, i, org);
      case _ =>
    }
  }

  lemma StepUnique(s: CaseState, step: Step)
    requires Unique(s.rows)
    ensures Unique(Apply(s, step).rows)
  {
    hide Format, CountOf;
  }

  lemma StepCounted(s: CaseState, step: Step, c: CreatorId)
    requires Inv(s) && c in Apply(s, step).pending
    ensures WasCounted(Apply(s, step).rows, Apply(s, step).pending[c])
  {
    hide Format, CountOf, Sequential, Unique;
    var t := Apply(s, step);
    CountGrows(s, step, t.pending[c].org);
    hide WasCounted, CountedAt;
    if step.Count? && step.creator == c {
      assert WasCounted(t.rows, t.pending[c]) by { assert CountedAt(t.rows, t.pending[c], CountOf(s.rows, step.org)); }
    } else {
      StillCounted(s.rows, t.rows, t.pending[c]);
    }
  }

  lemma StepInv(s: CaseState, step: Step)
    requires Inv(s)
    ensures Inv(Apply(s, step))
  {
    var t := Apply(s, step);
    StepUnique(s, step);
    hide Apply, Unique, WasCounted, Sequential;
    forall org ensures Sequential(t.rows, org) {
      StepSequential(s, step, org);
    }
    forall c | c in t.pending ensures WasCounted(t.rows, t.pending[c]) {
      StepCounted(s, step, c);
    }
  }

  lemma {:induction false} ReachableInv(r: Run, i: nat)
    requires IsRun(r) && i < |r.states|
    ensures Inv(r.states[i])
  {
    hide Apply;
    if i > 0 {
      hide Inv;
      ReachableInv(r, i - 1);
      StepInv(r.states[i - 1], r.steps[i - 1]);
    }
  }

  // ---- Main results ----

  // Whatever the interleaving, an organisation's committed rows carry exactly the
  // numbers 1, 2, ..., n in commit order, soft-deleted rows included, and no number
  // occurs twice in the table.
  lemma NumbersAreOneToN(r: Run, i: nat, org: OrgId)
    requires IsRun(r) && i < |r.states|
    ensures var rows := r.states[i].rows;
      && |Numbers(rows, org)| == CountOf(rows, org)
      && (forall k :: 0 <= k < CountOf(rows, org) ==> Numbers(rows, org)[k] == Format(org, k + 1))
      && (forall a, b :: 0 <= a < b < |rows| ==> rows[a].number != rows[b].number)
  {
    ReachableInv(r, i);
    hide IsRun;
    assert Sequential(r.states[i].rows, org);
  }

  lemma FirstNumberTaken(rows: seq<CaseRow>, org: OrgId)
    requires Sequential(rows, org) && CountOf(rows, org) > 0
    ensures exists i :: 0 <= i < |rows| && rows[i].org == org && rows[i].number == Format(org, 1)
  {
    hide Format;
    NumberInRows(rows, org, 0);
  }

  lemma FirstComeOnly(rows: seq<CaseRow>, o1: OrgId, o2: OrgId)
    requires Unique(rows) && Sequential(rows, o1) && Sequential(rows, o2)
    requires o1 != o2 && Tag(o1) == Tag(o2) && CountOf(rows, o1) > 0
    ensures CountOf(rows, o2) == 0
  {
    hide CountOf, Tag, Format, Sequential;
    if CountOf(rows, o2) > 0 {
      FirstNumberTaken(rows, o1);
      FirstNumberTaken(rows, o2);
      SameNumberIff(o1, 1, o2, 1);
      assert false;
    }
  }

  // Of the organisations whose ids agree on their first four characters, at most one
  // ever has a case.
  lemma OneOrgPerTag(r: Run, i: nat, o1: OrgId, o2: OrgId)
    requires IsRun(r) && i < |r.states|
    requires o1 != o2 && Tag(o1) == Tag(o2) && CountOf(r.states[i].rows, o1) > 0
    ensures CountOf(r.states[i].rows, o2) == 0
  {
    ReachableInv(r, i);
    hide IsRun, CountOf, Tag, Sequential, Unique, WasCounted;
    FirstComeOnly(r.states[i].rows, o1, o2);
  }

  // No other organisation with the same first four characters has a case.
  ghost predicate TagIsFree(rows: seq<CaseRow>, org: OrgId) {
    forall other: OrgId :: other != org && Tag(other) == Tag(org) ==> CountOf(rows, other) == 0
  }

  // An organisation's next number is taken exactly when its tag is another's.
  lemma NextIsFreeIff(s: CaseState, org: OrgId)
    requires Inv(s)
    ensures !Taken(s.rows, NextNumber(s.rows, org)) <==> TagIsFree(s.rows, org)
  {
    if Taken(s.rows, NextNumber(s.rows, org)) {
      TakenByOther(s, org);
    }
    if !TagIsFree(s.rows, org) {
      OtherTakesNext(s, org);
    }
  }

  lemma TakenByOther(s: CaseState, org: OrgId)
    requires Inv(s) && Taken(s.rows, NextNumber(s.rows, org))
    ensures !TagIsFree(s.rows, org)
  {
    var rows := s.rows;
    hide Tag, Format;
    var i :| 0 <= i < |rows| && rows[i].number == NextNumber(rows, org);
    var other := rows[i].org;
    assert Sequential(rows, other);
    RowInNumbers(rows, i);
    hide CountOf, Numbers, Unique, WasCounted;
    var k :| 0 <= k < CountOf(rows, other) && Numbers(rows, other)[k] == rows[i].number;
    SameNumberIff(other, k + 1, org, CountOf(rows, org) + 1);
  }

  lemma OtherTakesNext(s: CaseState, org: OrgId)
    requires Inv(s) && !TagIsFree(s.rows, org)
    ensures Taken(s.rows, NextNumber(s.rows, org))
  {
    hide CountOf, Tag, Format, Sequential, Unique, WasCounted;
    var other :| other != org && Tag(other) == Tag(org) && CountOf(s.rows, other) != 0;
    assert Sequential(s.rows, other) && Sequential(s.rows, org);
    FirstComeOnly(s.rows, other, org);
    FirstNumberTaken(s.rows, other);
    SameNumberIff(org, 1, other, 1);
  }

  // Creator `c` does nothing between steps `i` and `j`.
  predicate Quiet(r: Run, c: CreatorId, i: nat, j: nat)
    requires j <= |r.steps|
  {
    forall k :: i <= k < j ==> r.steps[k].SoftDelete? || r.steps[k].creator != c
  }

  lemma {:induction false} PendingStays(r: Run, c: CreatorId, i: nat, j: nat)
    requires IsRun(r) && i <= j <= |r.steps| && Quiet(r, c, i, j) && c in r.states[i].pending
    ensures c in r.states[j].pending && r.states[j].pending[c] == r.states[i].pending[c]
  {
    if i < j {
      PendingStays(r, c, i, j - 1);
      hide IsRun, Taken, Deleted, NextNumber;
    }
  }

  // A creation that counts at step `i` and inserts at step `j` commits exactly when no
  // case of its organisation was committed in between and its tag is not another's; what
  // it then commits is the organisation's next number.
  lemma CommitsIff(r: Run, c: CreatorId, org: OrgId, i: nat, j: nat)
    requires IsRun(r) && i < j < |r.steps|
    requires r.steps[i] == Count(c, org) && r.steps[j] == Insert(c) && Quiet(r, c, i + 1, j)
    ensures var before, after := r.states[j].rows, r.states[j + 1].rows;
      if CountOf(before, org) == CountOf(r.states[i].rows, org) && TagIsFree(before, org)
      then after == before + [CaseRow(org, Format(org, CountOf(before, org) + 1), false)]
      else after == before
  {
    var p := Pending(org, NextNumber(r.states[i].rows, org));
    assert r.states[i + 1].pending[c] == p;
    PendingStays(r, c, i + 1, j);
    ReachableInv(r, j);
    CountNeverShrinks(r, i, j, org);
    assert r.states[j + 1] == Apply(r.states[j], Insert(c));
    hide IsRun, Format, CountOf, Numbers, TagIsFree, Unique, WasCounted;
    var s := r.states[j];
    var n := CountOf(r.states[i].rows, org);
    if CountOf(s.rows, org) == n {
      NextIsFreeIff(s, org);
    } else {
      assert Sequential(s.rows, org);
      NumberInRows(s.rows, org, n);
    }
  }

  lemma {:induction false} CountNeverShrinks(r: Run, i: nat, j: nat, org: OrgId)
    requires IsRun(r) && i <= j <= |r.steps|
    ensures CountOf(r.states[i].rows, org) <= CountOf(r.states[j].rows, org)
  {
    hide Apply, CountOf;
    if i < j {
      CountNeverShrinks(r, i, j - 1, org);
      CountGrows(r.states[j - 1], r.steps[j - 1], org);
    }
  }

  // Once an organisation has a case, no other with the same tag ever gets one.
  lemma TagIsLostForGood(r: Run, i: nat, j: nat, owner: OrgId, other: OrgId)
    requires IsRun(r) && i <= j <= |r.steps|
    requires owner != other && Tag(owner) == Tag(other) && CountOf(r.states[i].rows, owner) > 0
    ensures CountOf(r.states[j].rows, other) == 0
  {
    hide Apply, Tag, CountOf;
    CountNeverShrinks(r, i, j, owner);
    OneOrgPerTag(r, j, owner, other);
  }

  // The run of any steps.
  function RunOf(steps: seq<Step>): (r: Run)
    ensures IsRun(r) && r.steps == steps
  {
    if steps == [] then Run([NoCases], []) else Extend(RunOf(steps[..|steps| - 1]), steps[|steps| - 1])
  }

  // The first case of all is committed.
  lemma FirstCase(r: Run, org: OrgId)
    requires IsRun(r) && |r.steps| >= 2 && r.steps[0] == Count(1, org) && r.steps[1] == Insert(1)
    ensures r.states[2].rows == [CaseRow(org, Format(org, 1), false)]
  {
    CommitsIff(r, 1, org, 0, 1);
    hide Format, Tag;
    assert r.states[1].rows == [];
  }

  lemma SecondOrganisation(r: Run, o1: OrgId, o2: OrgId)
    requires IsRun(r) && r.steps == [Count(1, o1), Insert(1), Count(2, o2), Insert(2)]
    requires o1 != o2 && Tag(o1) == Tag(o2)
    ensures r.states[4].rows == [CaseRow(o1, Format(o1, 1), false)]
  {
    FirstCase(r, o1);
    CommitsIff(r, 2, o2, 2, 3);
    assert r.states[3].rows == r.states[2].rows;
    hide IsRun, Format, Tag;
    NumbersSnoc([], CaseRow(o1, Format(o1, 1), false), o1);
    assert [] + [CaseRow(o1, Format(o1, 1), false)] == r.states[2].rows;
    assert CountOf(r.states[3].rows, o1) == 1;
    assert !TagIsFree(r.states[3].rows, o2);
  }

  // Two organisations, abcd1 and abcd2: once the first has a case, the second gets none.
  lemma SharedTagFails()
    ensures RunOf([Count(1, "abcd1"), Insert(1), Count(2, "abcd2"), Insert(2)]).states[4].rows
            == [CaseRow("abcd1", Format("abcd1", 1), false)]
  {
    assert "abcd1"[..4] == "abcd2"[..4] && "abcd1"[4] != "abcd2"[4];
    hide IsRun, RunOf, Format;
    SecondOrganisation(RunOf([Count(1, "abcd1"), Insert(1), Count(2, "abcd2"), Insert(2)]), "abcd1", "abcd2");
  }

  // ---- The repository and the service ----

  class CasesRepository {
    var rows: seq<CaseRow>

    constructor ()
      ensures rows == []
    {
      rows := [];
    }

    method GetNextCaseNumber(org: OrgId) returns (number: string)
      ensures number == Format(org, CountOf(rows, org) + 1)
    {
      var count := 0;
      for i := 0 to |rows|
        invariant count == CountOf(rows[..i], org)
      {
        assert rows[..i + 1][..i] == rows[..i];
        if rows[i].org == org { count := count + 1; }
      }
      assert rows[..|rows|] == rows;
      number := Format(org, count + 1);
    }

    // The unique index refuses a number that is already there.
    method Create(org: OrgId, number: string) returns (created: bool)
      modifies this
      ensures created <==> !Taken(old(rows), number)
      ensures rows == if created then old(rows) + [CaseRow(org, number, false)] else old(rows)
    {
      created := !exists i :: 0 <= i < |rows| && rows[i].number == number;
      if created {
        rows := rows + [CaseRow(org, number, false)];
      }
    }

    method SoftDelete(index: nat)
      modifies this
      ensures rows == Deleted(old(rows), index)
    {
      if index < |rows| {
        rows := rows[index := rows[index].(deleted := true)];
      }
    }
  }

  class CasesService {
    const repo: CasesRepository
    var pending: map<CreatorId, Pending>
    ghost var run: Run

    ghost predicate Valid()
      reads this, repo
    {
      IsRun(run) && run.states[|run.steps|] == CaseState(repo.rows, pending)
    }

    constructor ()
      ensures Valid() && repo.rows == [] && pending == map[] && fresh(repo)
    {
      repo := new CasesRepository();
      pending := map[];
      run := Run([NoCases], []);
    }

    method CountStep(creator: CreatorId, org: OrgId)
      requires Valid()
      modifies this
      ensures Valid() && run == Extend(old(run), Count(creator, org))
    {
      var number := repo.GetNextCaseNumber(org);
      pending := pending[creator := Pending(org, number)];
      hide IsRun;
      run := Extend(run, Count(creator, org));
    }

    method InsertStep(creator: CreatorId) returns (created: bool)
      requires Valid() && creator in pending
      modifies this, repo
      ensures Valid() && run == Extend(old(run), Insert(creator))
      ensures created <==> repo.rows != old(repo.rows)
    {
      var p := pending[creator];
      created := repo.Create(p.org, p.number);
      pending := pending - {creator};
      hide IsRun;
      run := Extend(run, Insert(creator));
    }

    method SoftDeleteStep(index: nat)
      requires Valid()
      modifies this, repo
      ensures Valid() && run == Extend(old(run), SoftDelete(index))
      ensures |repo.rows| == |old(repo.rows)|
      ensures forall i :: 0 <= i < |repo.rows| ==> (repo.rows[i].deleted <==> old(repo.rows)[i].deleted || i == index)
    {
      repo.SoftDelete(index);
      hide IsRun;
      run := Extend(run, SoftDelete(index));
    }

    method AbandonStep(creator: CreatorId)
      requires Valid()
      modifies this
      ensures Valid() && run == Extend(old(run), Abandon(creator)) && pending == old(pending) - {creator}
    {
      pending := pending - {creator};
      hide IsRun;
      run := Extend(run, Abandon(creator));
    }

    // The two steps with nothing in between: the creation succeeds exactly when the tag
    // is not another organisation's.
    method Create(creator: CreatorId, org: OrgId) returns (created: bool)
      requires Valid()
      modifies this, repo
      ensures Valid() && run == Extend(Extend(old(run), Count(creator, org)), Insert(creator))
      ensures created <==> TagIsFree(old(repo.rows), org)
      ensures repo.rows == if created then old(repo.rows) + [CaseRow(org, NextNumber(old(repo.rows), org), false)] else old(repo.rows)
    {
      ghost var n := |run.steps|;
      CountStep(creator, org);
      created := InsertStep(creator);
      hide Apply, TagIsFree, CountOf, Format;
      CommitsIff(run, creator, org, n, n + 1);
    }
  }
}
