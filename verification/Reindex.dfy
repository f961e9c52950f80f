/** The pass that rebuilds missing discovery rows beside other writers of the same tables. */
module Reindex {
  import opened Wrappers
  import opened Order
  import Search

  type Id = Text

  /** A release row: its immutable identity, what its artifact says about itself, and the discovery document its
      verified artifact gives (None when it cannot be verified). */
  datatype Row = Row(
    packageId: string, packageName: Text, version: Text,
    artifactName: Text, artifactVersion: Text, document: Option<Search.Document>)

  datatype Candidate = Candidate(id: Id, packageId: string, packageName: Text, version: Text)

  datatype Failure = IdentityChanged | ArtifactMismatch | Unverifiable | ConflictingMetadata

  datatype Outcome = Outcome(indexed: nat, complete: bool)

  const BATCH_SIZE: nat := 128

  type Releases = map<Id, Row>
  type Discovery = map<Id, Search.Document>

  /** What another session may commit: rows are appended, never changed or deleted. */
  datatype Change = AddRelease(id: Id, row: Row) | AddDiscovery(id: Id, document: Search.Document)

  ghost predicate Appends<K, V>(before: map<K, V>, after: map<K, V>) {
    forall k | k in before :: k in after && after[k] == before[k]
  }

  function MissingIds(releases: Releases, discovery: Discovery): set<Id> { releases.Keys - discovery.Keys }

  predicate Sane(row: Row) {
    row.artifactName == row.packageName && row.artifactVersion == row.version && row.document.Some?
  }

  function CandidateOf(id: Id, row: Row): Candidate { Candidate(id, row.packageId, row.packageName, row.version) }

  predicate InBatch(batch: seq<Candidate>, id: Id) { exists i | 0 <= i < |batch| :: batch[i].id == id }

  function Candidates(ids: seq<Id>, rows: Releases): (batch: seq<Candidate>)
    requires forall i | 0 <= i < |ids| :: ids[i] in rows
    ensures |batch| == |ids| && forall i | 0 <= i < |ids| :: batch[i] == CandidateOf(ids[i], rows[ids[i]])
  {
    seq(|ids|, i requires 0 <= i < |ids| => CandidateOf(ids[i], rows[ids[i]]))
  }

  /** What comes before one of the first `count` in order is one of them. */
  lemma FirstInOrder(sorted: seq<Id>, count: nat, id: Id) returns (i: nat)
    requires Ascending(sorted, TextLess) && id in sorted && count <= |sorted|
    requires count == |sorted| || (count > 0 && TextLess(id, sorted[count - 1]))
    ensures i < count && sorted[i] == id
  {
    i :| i < |sorted| && sorted[i] == id;
    if count > 0 { TextTrichotomy(id, sorted[count - 1]); }
  }

  predicate Behind(after: Option<Id>, id: Id) { after.Some? ==> TextLess(after.value, id) }

  /** The batch lists missing releases behind the cursor in order, and skips none before its last, or none at all
      if it is not full. */
  ghost predicate FirstMissing(
    batch: seq<Candidate>, missing: set<Id>, rows: Releases, after: Option<Id>, limit: nat)
    requires limit >= 1
  {
    && |batch| <= limit
    && (forall i, j | 0 <= i < j < |batch| :: TextLess(batch[i].id, batch[j].id))
    && (forall i | 0 <= i < |batch| ::
          && batch[i].id in missing && batch[i].id in rows && Behind(after, batch[i].id)
          && batch[i] == CandidateOf(batch[i].id, rows[batch[i].id]))
    && (forall id | id in missing && Behind(after, id) ::
          |batch| < limit || TextLess(id, batch[|batch| - 1].id) ==> InBatch(batch, id))
  }

  /** The candidates of the first `count` ids in order skip none. */
  lemma SkipsNone(sorted: seq<Id>, count: nat, batch: seq<Candidate>, id: Id)
    requires Ascending(sorted, TextLess) && id in sorted && |batch| == count <= |sorted|
    requires forall i | 0 <= i < count :: batch[i].id == sorted[i]
    requires count == |sorted| || (count > 0 && TextLess(id, batch[count - 1].id))
    ensures InBatch(batch, id)
  {
    var i := FirstInOrder(sorted, count, id);
    assert batch[i].id == id;
  }

  lemma BatchInOrder(sorted: seq<Id>, batch: seq<Candidate>, missing: set<Id>, rows: Releases, after: Option<Id>)
    requires Ascending(sorted, TextLess) && |batch| <= |sorted|
    requires forall i | 0 <= i < |sorted| :: sorted[i] in rows && sorted[i] in missing && Behind(after, sorted[i])
    requires forall i | 0 <= i < |batch| :: batch[i] == CandidateOf(sorted[i], rows[sorted[i]])
    ensures forall i, j | 0 <= i < j < |batch| :: TextLess(batch[i].id, batch[j].id)
    ensures forall i | 0 <= i < |batch| ::
              && batch[i].id in missing && batch[i].id in rows && Behind(after, batch[i].id)
              && batch[i] == CandidateOf(batch[i].id, rows[batch[i].id])
  {
    assert forall i | 0 <= i < |batch| :: batch[i].id == sorted[i];
  }

  lemma BatchSkipsNone(sorted: seq<Id>, batch: seq<Candidate>, missing: set<Id>, after: Option<Id>, limit: nat)
    requires Ascending(sorted, TextLess) && limit >= 1
    requires forall id | id in missing && Behind(after, id) :: id in sorted
    requires |batch| == if |sorted| <= limit then |sorted| else limit
    requires forall i | 0 <= i < |batch| :: batch[i].id == sorted[i]
    ensures forall id | id in missing && Behind(after, id) ::
              |batch| < limit || TextLess(id, batch[|batch| - 1].id) ==> InBatch(batch, id)
  {
    forall id | id in missing && Behind(after, id) && (|batch| < limit || TextLess(id, batch[|batch| - 1].id))
      ensures InBatch(batch, id)
    {
      SkipsNone(sorted, |batch|, batch, id);
    }
  }

  /** The first `limit` of ids that are in order. */
  function FirstBatch(sorted: seq<Id>, rows: Releases, limit: nat): seq<Candidate>
    requires forall i | 0 <= i < |sorted| :: sorted[i] in rows
  {
    Candidates(if |sorted| <= limit then sorted else sorted[..limit], rows)
  }

  lemma FirstBatchLists(sorted: seq<Id>, rows: Releases, limit: nat)
    requires forall i | 0 <= i < |sorted| :: sorted[i] in rows
    ensures var batch := FirstBatch(sorted, rows, limit);
            && |batch| == (if |sorted| <= limit then |sorted| else limit)
            && (forall i | 0 <= i < |batch| :: batch[i] == CandidateOf(sorted[i], rows[sorted[i]]))
  {
  }

  lemma FirstBatchIsFirst(sorted: seq<Id>, missing: set<Id>, rows: Releases, after: Option<Id>, limit: nat)
    requires Ascending(sorted, TextLess) && limit >= 1
    requires forall i | 0 <= i < |sorted| :: sorted[i] in rows && sorted[i] in missing && Behind(after, sorted[i])
    requires forall id | id in missing && Behind(after, id) :: id in sorted
    ensures FirstMissing(FirstBatch(sorted, rows, limit), missing, rows, after, limit)
  {
    var batch := FirstBatch(sorted, rows, limit);
    FirstBatchLists(sorted, rows, limit);
    BatchInOrder(sorted, batch, missing, rows, after);
    BatchSkipsNone(sorted, batch, missing, after, limit);
  }

  lemma IdsSort(ids: seq<Id>, missing: set<Id>, after: Option<Id>)
    requires Distinct(ids) && forall id :: id in ids <==> id in missing && Behind(after, id)
    ensures var sorted := Sort(ids, TextLess);
            && Ascending(sorted, TextLess)
            && (forall i | 0 <= i < |sorted| :: sorted[i] in missing && Behind(after, sorted[i]))
            && (forall id | id in missing && Behind(after, id) :: id in sorted)
  {
    TextStrictTotal();
    SortAscending(ids, TextLess);
    SortPermutes(ids, TextLess);
    var sorted := Sort(ids, TextLess);
    assert forall i | 0 <= i < |sorted| :: sorted[i] in sorted;
  }

  class RegistryDatabase {
    var releases: Releases
    var discovery: Discovery
    /** What the other sessions commit before each of the statements to come. */
    var others: seq<seq<Change>>

    predicate Valid()
      reads this
    {
      discovery.Keys <= releases.Keys
    }

    predicate Quiet()
      reads this`others
    {
      forall i | 0 <= i < |others| :: others[i] == []
    }

    constructor (releases: Releases, discovery: Discovery, others: seq<seq<Change>>)
      requires discovery.Keys <= releases.Keys
      ensures Valid()
      ensures this.releases == releases && this.discovery == discovery && this.others == others
    {
      this.releases, this.discovery, this.others := releases, discovery, others;
    }

    /** Another session's commits; what would violate a key is not committed. */
    method LetOthersCommit()
      requires Valid()
      modifies this
      ensures Valid()
      ensures Appends(old(releases), releases) && Appends(old(discovery), discovery)
      ensures old(Quiet()) ==> Quiet() && releases == old(releases) && discovery == old(discovery)
    {
      if others == [] { return; }
      var changes := others[0];
      others := others[1..];
      for i := 0 to |changes|
        invariant Valid() && others == old(others)[1..]
        invariant Appends(old(releases), releases) && Appends(old(discovery), discovery)
        invariant changes == [] ==> releases == old(releases) && discovery == old(discovery)
      {
        match changes[i]
        case AddRelease(id, row) => if id !in releases { releases := releases[id := row]; }
        case AddDiscovery(id, document) =>
          if id in releases && id !in discovery { discovery := discovery[id := document]; }
      }
    }

    /** The first `limit` releases without a discovery row, by id, after the cursor. */
    method SelectMissingBatch(after: Option<Id>, limit: nat) returns (batch: seq<Candidate>)
      requires Valid() && limit >= 1
      modifies this
      ensures Valid()
      ensures Appends(old(releases), releases) && Appends(old(discovery), discovery)
      ensures old(Quiet()) ==> Quiet() && releases == old(releases) && discovery == old(discovery)
      ensures FirstMissing(batch, MissingIds(releases, discovery), releases, after, limit)
    {
      LetOthersCommit();
      var ids := MissingAfter(after);
      IdsSort(ids, MissingIds(releases, discovery), after);
      var sorted := Sort(ids, TextLess);
      batch := FirstBatch(sorted, releases, limit);
      FirstBatchIsFirst(sorted, MissingIds(releases, discovery), releases, after, limit);
    }

    method MissingAfter(after: Option<Id>) returns (ids: seq<Id>)
      ensures Distinct(ids)
      ensures forall id :: id in ids <==> id in MissingIds(releases, discovery) && Behind(after, id)
    {
      ids := [];
      var rest := releases.Keys;
      while rest != {}
        invariant rest <= releases.Keys && Distinct(ids)
        invariant forall id :: id in ids <==>
                    id in MissingIds(releases, discovery) && id !in rest && Behind(after, id)
      {
        var id :| id in rest;
        if id !in discovery && Behind(after, id) { ids := ids + [id]; }
        rest := rest - {id};
      }
    }

    /** `reindexMissingRelease`: one transaction that locks the release row, verifies its artifact and appends the
        discovery row unless another session already has. */
    method ReindexMissingRelease(candidate: Candidate) returns (r: Result<bool, Failure>)
      requires Valid() && candidate.id in releases && candidate == CandidateOf(candidate.id, releases[candidate.id])
      modifies this
      ensures Valid() && candidate.id in releases
      ensures Appends(old(releases), releases) && Appends(old(discovery), discovery)
      ensures r != Err(IdentityChanged)
      ensures r.Ok? ==> Sane(releases[candidate.id]) && candidate.id in discovery
                        && discovery[candidate.id] == releases[candidate.id].document.value
      ensures r == Ok(true) ==> candidate.id !in old(discovery)
      ensures old(Quiet()) ==>
                && Quiet() && releases == old(releases)
                && (r.Err? || candidate.id in old(discovery) ==> discovery == old(discovery))
                && (Sane(releases[candidate.id]) && candidate.id !in old(discovery) ==>
                      && r == Ok(true)
                      && discovery == old(discovery)[candidate.id := releases[candidate.id].document.value])
    {
      LetOthersCommit();
      if candidate.id !in releases || CandidateOf(candidate.id, releases[candidate.id]) != candidate {
        assert false;
      }
      var row := releases[candidate.id];
      if row.artifactName != candidate.packageName || row.artifactVersion != candidate.version {
        return Err(ArtifactMismatch);
      }
      if row.document.None? { return Err(Unverifiable); }
      if candidate.id in discovery {
        if discovery[candidate.id] != row.document.value { return Err(ConflictingMetadata); }
        return Ok(false);
      }
      discovery := discovery[candidate.id := row.document.value];
      return Ok(true);
    }
  }

  /** What a pass that began at `before` has done: which releases it processed and which rows it added. */
  ghost predicate Progress(before: Discovery, after: Discovery, rows: Releases, processed: seq<Id>, added: set<Id>) {
    && Distinct(processed)
    && (forall id | id in processed :: id in after)
    && |added| <= |processed|
    && (forall id | id in added :: id in processed && id !in before)
    && (forall id | id in added :: id in rows && id in after && Sane(rows[id]) && after[id] == rows[id].document.value)
  }

  /** One release more. */
  lemma ProgressStep(
    before: Discovery, now: Discovery, next: Discovery, rows: Releases, rows': Releases,
    processed: seq<Id>, added: set<Id>, id: Id, inserted: bool)
    returns (processed': seq<Id>, added': set<Id>)
    requires Progress(before, now, rows, processed, added)
    requires Appends(now, next) && Appends(rows, rows') && id !in processed && id in next
    requires inserted ==> id !in before && id in rows' && Sane(rows'[id]) && next[id] == rows'[id].document.value
    ensures Progress(before, next, rows', processed', added') && processed' == processed + [id]
    ensures added' == (if inserted then added + {id} else added)
    ensures |added'| == |added| + if inserted then 1 else 0
  {
    processed', added' := processed + [id], if inserted then added + {id} else added;
  }

  lemma ProgressJoin(
    before: Discovery, middle: Discovery, start: Discovery, after: Discovery, rows: Releases, rows': Releases,
    processed: seq<Id>, added: set<Id>, more: seq<Id>, addedMore: set<Id>)
    requires Progress(before, middle, rows, processed, added) && Progress(start, after, rows', more, addedMore)
    requires Appends(before, middle) && Appends(middle, start) && Appends(start, after) && Appends(rows, rows')
    requires forall id | id in more :: id !in start
    ensures Progress(before, after, rows', processed + more, added + addedMore)
    ensures |added + addedMore| == |added| + |addedMore|
  {
    assert added !! addedMore;
    forall i, j | 0 <= i < |processed| && 0 <= j < |more| ensures processed[i] != more[j] {
      assert processed[i] in processed && processed[i] in middle;
      assert more[j] in more && more[j] !in start;
    }
  }

  ghost predicate AllSane(releases: Releases, discovery: Discovery) {
    forall id | id in MissingIds(releases, discovery) :: Sane(releases[id])
  }

  /** Where a pass that nobody disturbs is, when every artifact verifies. */
  ghost predicate Undisturbed(
    rows0: Releases, disc0: Discovery, rows: Releases, disc: Discovery, added: set<Id>, done: nat)
  {
    && rows == rows0 && |added| == done && added <= MissingIds(rows0, disc0)
    && MissingIds(rows, disc) == MissingIds(rows0, disc0) - added
    && AllSane(rows, disc)
  }

  lemma UndisturbedOne(
    rows0: Releases, disc0: Discovery, rows: Releases, disc: Discovery, added: set<Id>, done: nat, id: Id,
    d: Search.Document)
    requires Undisturbed(rows0, disc0, rows, disc, added, done) && id in MissingIds(rows, disc)
    ensures Undisturbed(rows0, disc0, rows, disc[id := d], added + {id}, done + 1)
  {
    assert id !in added;
    assert MissingIds(rows, disc[id := d]) == MissingIds(rows, disc) - {id};
  }

  /** The loop over one batch; it stops at the first failure, with everything before it committed. */
  method ProcessBatch(db: RegistryDatabase, batch: seq<Candidate>)
    returns (r: Result<nat, Failure>, ghost processed: seq<Id>, ghost added: set<Id>)
    requires db.Valid()
    requires forall i, j | 0 <= i < j < |batch| :: batch[i].id != batch[j].id
    requires forall i | 0 <= i < |batch| ::
               && batch[i].id in MissingIds(db.releases, db.discovery)
               && batch[i] == CandidateOf(batch[i].id, db.releases[batch[i].id])
    modifies db
    ensures db.Valid()
    ensures Appends(old(db.releases), db.releases) && Appends(old(db.discovery), db.discovery)
    ensures |processed| <= |batch| && (r.Ok? ==> |processed| == |batch| && r.value == |added|)
    ensures forall id | id in processed :: id in MissingIds(old(db.releases), old(db.discovery))
    ensures Progress(old(db.discovery), db.discovery, db.releases, processed, added)
    ensures old(db.Quiet()) ==> db.Quiet() && db.releases == old(db.releases)
    ensures old(db.Quiet()) && AllSane(old(db.releases), old(db.discovery)) ==>
              && r.Ok? && |added| == |batch|
              && MissingIds(db.releases, db.discovery) == MissingIds(old(db.releases), old(db.discovery)) - added
  {
    ghost var rows0, disc0 := db.releases, db.discovery;
    ghost var undisturbed := db.Quiet() && AllSane(rows0, disc0);
    var indexed := 0;
    processed, added := [], {};
    for i := 0 to |batch|
      invariant db.Valid() && Appends(rows0, db.releases) && Appends(disc0, db.discovery)
      invariant |processed| == i && forall k | 0 <= k < i :: processed[k] == batch[k].id
      invariant indexed == |added|
      invariant Progress(disc0, db.discovery, db.releases, processed, added)
      invariant old(db.Quiet()) ==> db.Quiet() && db.releases == rows0
      invariant undisturbed ==> Undisturbed(rows0, disc0, db.releases, db.discovery, added, i)
    {
      ghost var rows, disc := db.releases, db.discovery;
      var id := batch[i].id;
      assert forall k | 0 <= k < i :: batch[k].id != id;
      var inserted := db.ReindexMissingRelease(batch[i]);
      if inserted.Err? {
        return Err(inserted.error), processed, added;
      }
      if undisturbed { UndisturbedOne(rows0, disc0, rows, disc, added, i, id, rows[id].document.value); }
      processed, added :=
        ProgressStep(disc0, disc, db.discovery, rows, db.releases, processed, added, id, inserted.value);
      if inserted.value { indexed := indexed + 1; }
    }
    return Ok(indexed), processed, added;
  }

  /** Where a pass that began at `rows0` and `disc0` is. */
  ghost predicate Pass(
    rows0: Releases, disc0: Discovery, rows: Releases, disc: Discovery, processed: seq<Id>, added: set<Id>)
  {
    Appends(rows0, rows) && Appends(disc0, disc) && Progress(disc0, disc, rows, processed, added)
  }

  lemma PassStep(
    rows0: Releases, disc0: Discovery, rows: Releases, disc: Discovery, processed: seq<Id>, added: set<Id>,
    rows': Releases, disc': Discovery, more: seq<Id>, addedMore: set<Id>)
    requires Pass(rows0, disc0, rows, disc, processed, added) && Pass(rows, disc, rows', disc', more, addedMore)
    requires forall id | id in more :: id !in disc
    ensures Pass(rows0, disc0, rows', disc', processed + more, added + addedMore)
    ensures |added + addedMore| == |added| + |addedMore|
  {
    ProgressJoin(disc0, disc, disc, disc', rows, rows', processed, added, more, addedMore);
  }

  lemma UndisturbedStep(
    rows0: Releases, disc0: Discovery, rows: Releases, disc: Discovery, added: set<Id>, done: nat,
    disc': Discovery, more: set<Id>, count: nat)
    requires Undisturbed(rows0, disc0, rows, disc, added, done) && |added + more| == |added| + |more|
    requires |more| == count && more <= MissingIds(rows, disc) && MissingIds(rows, disc') == MissingIds(rows, disc) - more
    ensures Undisturbed(rows0, disc0, rows, disc', added + more, done + count)
  {
  }

  lemma JoinRound(
    rows0: Releases, disc0: Discovery, rows: Releases, disc: Discovery, processed: seq<Id>, added: set<Id>,
    rows': Releases, disc': Discovery, more: seq<Id>, addedMore: set<Id>, undisturbed: bool)
    returns (processed': seq<Id>, added': set<Id>)
    requires Pass(rows0, disc0, rows, disc, processed, added) && Pass(rows, disc, rows', disc', more, addedMore)
    requires forall id | id in more :: id !in disc
    requires undisturbed ==>
               && Undisturbed(rows0, disc0, rows, disc, added, |added|) && rows' == rows
               && addedMore <= MissingIds(rows, disc) && MissingIds(rows, disc') == MissingIds(rows, disc) - addedMore
    ensures Pass(rows0, disc0, rows', disc', processed', added')
    ensures |processed'| == |processed| + |more| && |added'| == |added| + |addedMore|
    ensures undisturbed ==> Undisturbed(rows0, disc0, rows', disc', added', |added'|)
  {
    PassStep(rows0, disc0, rows, disc, processed, added, rows', disc', more, addedMore);
    if undisturbed { UndisturbedStep(rows0, disc0, rows, disc, added, |added|, disc', addedMore, |addedMore|); }
    processed', added' := processed + more, added + addedMore;
  }

  lemma UndisturbedEnds(
    rows0: Releases, disc0: Discovery, rows: Releases, disc: Discovery, added: set<Id>, done: nat, maxReleases: nat)
    requires Undisturbed(rows0, disc0, rows, disc, added, done) && done <= maxReleases
    requires done == maxReleases || MissingIds(rows, disc) == {}
    ensures done == Smaller(|MissingIds(rows0, disc0)|, maxReleases)
    ensures MissingIds(rows, disc) == {} <==> |MissingIds(rows0, disc0)| <= maxReleases
  {
    var missing := MissingIds(rows0, disc0);
    assert missing == added + (missing - added);
  }

  lemma ProgressLater(
    before: Discovery, now: Discovery, later: Discovery, rows: Releases, rows': Releases,
    processed: seq<Id>, added: set<Id>)
    requires Progress(before, now, rows, processed, added) && Appends(now, later) && Appends(rows, rows')
    ensures Progress(before, later, rows', processed, added)
  {
  }

  lemma BatchDistinct(batch: seq<Candidate>)
    requires forall i, j | 0 <= i < j < |batch| :: TextLess(batch[i].id, batch[j].id)
    ensures forall i, j | 0 <= i < j < |batch| :: batch[i].id != batch[j].id
  {
    forall i, j | 0 <= i < j < |batch| ensures batch[i].id != batch[j].id {
      TextTrichotomy(batch[i].id, batch[j].id);
    }
  }

  function Smaller(a: nat, b: nat): nat { if a <= b then a else b }

  /** One round: select a batch after the cursor and process it. `last` is the new cursor, None if the batch was
      empty. */
  method Round(db: RegistryDatabase, after: Option<Id>, limit: nat)
    returns (r: Result<nat, Failure>, last: Option<Id>, count: nat, ghost processed: seq<Id>, ghost added: set<Id>)
    requires db.Valid() && limit >= 1
    modifies db
    ensures db.Valid()
    ensures Pass(old(db.releases), old(db.discovery), db.releases, db.discovery, processed, added)
    ensures forall id | id in processed :: id !in old(db.discovery)
    ensures |processed| <= limit && (r.Ok? ==> count == |processed| && r.value == |added|)
    ensures last.None? ==> r.Ok? && count == 0 && (after.None? ==> MissingIds(db.releases, db.discovery) == {})
    ensures last.Some? && r.Ok? ==> count > 0
    ensures old(db.Quiet()) ==> db.Quiet() && db.releases == old(db.releases)
    ensures old(db.Quiet()) && AllSane(old(db.releases), old(db.discovery)) ==>
              && r.Ok? && |added| == count && added <= MissingIds(old(db.releases), old(db.discovery))
              && MissingIds(db.releases, db.discovery) == MissingIds(old(db.releases), old(db.discovery)) - added
  {
    ghost var disc0 := db.discovery;
    var batch := db.SelectMissingBatch(after, limit);
    if batch == [] {
      assert forall id | id in MissingIds(db.releases, db.discovery) && after.None? :: InBatch(batch, id);
      return Ok(0), None, 0, [], {};
    }
    BatchDistinct(batch);
    ghost var rows1, disc1 := db.releases, db.discovery;
    r, processed, added := ProcessBatch(db, batch);
    EarlierStart(disc0, disc1, db.discovery, db.releases, processed, added);
    return r, Some(batch[|batch| - 1].id), |batch|, processed, added;
  }

  lemma EarlierStart(
    before: Discovery, start: Discovery, after: Discovery, rows: Releases, processed: seq<Id>, added: set<Id>)
    requires Progress(start, after, rows, processed, added) && Appends(before, start) && Appends(start, after)
    ensures Progress(before, after, rows, processed, added) && Appends(before, after)
  {
  }

  /** `reindexRegistryReleaseDiscovery` terminates whatever others commit meanwhile: each round uses up budget, or
      drops the cursor. It processes each release at most once and at most `maxReleases` in all; it adds rows only
      where there were none, each the verified document of its release; and it reports complete exactly if its
      last look found none missing. Undisturbed, on artifacts that verify, it adds as many as are missing or the
      budget allows. */
  method ReindexRegistryReleaseDiscovery(db: RegistryDatabase, maxReleases: nat)
    returns (r: Result<Outcome, Failure>, ghost processed: seq<Id>, ghost added: set<Id>)
    requires db.Valid() && maxReleases >= 1
    modifies db
    ensures db.Valid()
    ensures Pass(old(db.releases), old(db.discovery), db.releases, db.discovery, processed, added)
    ensures |processed| <= maxReleases
    ensures r.Ok? ==> r.value.indexed == |added|
    ensures r.Ok? ==> (r.value.complete <==> MissingIds(db.releases, db.discovery) == {})
    ensures var missing := MissingIds(old(db.releases), old(db.discovery));
            old(db.Quiet()) && AllSane(old(db.releases), old(db.discovery)) ==>
              && r.Ok? && r.value.indexed == Smaller(|missing|, maxReleases)
              && (r.value.complete <==> |missing| <= maxReleases)
              && db.releases == old(db.releases)
              && MissingIds(db.releases, db.discovery) == missing - added
  {
    ghost var rows0, disc0 := db.releases, db.discovery;
    ghost var undisturbed := db.Quiet() && AllSane(rows0, disc0);
    var indexed, done := 0, 0;
    var after: Option<Id> := None;
    processed, added := [], {};
    while done < maxReleases
      invariant db.Valid() && Pass(rows0, disc0, db.releases, db.discovery, processed, added)
      invariant done == |processed| <= maxReleases && indexed == |added|
      invariant undisturbed ==> db.Quiet() && done == |added|
      invariant undisturbed ==> Undisturbed(rows0, disc0, db.releases, db.discovery, added, |added|)
      decreases maxReleases - done, if after.Some? then 1 else 0
    {
      ghost var rows, disc := db.releases, db.discovery;
      var limit := if maxReleases - done < BATCH_SIZE then maxReleases - done else BATCH_SIZE;
      var inserted, last, count;
      ghost var more, addedMore;
      inserted, last, count, more, addedMore := Round(db, after, limit);
      processed, added := JoinRound(
        rows0, disc0, rows, disc, processed, added, db.releases, db.discovery, more, addedMore, undisturbed);
      if inserted.Err? { return Err(inserted.error), processed, added; }
      done := done + count;
      indexed := indexed + inserted.value;
      if last.None? && after.None? {
        if undisturbed { UndisturbedEnds(rows0, disc0, db.releases, db.discovery, added, done, maxReleases); }
        return Ok(Outcome(indexed, true)), processed, added;
      }
      after := last;
    }
    var complete := LastLook(db, rows0, disc0, processed, added);
    if undisturbed { UndisturbedEnds(rows0, disc0, db.releases, db.discovery, added, done, maxReleases); }
    return Ok(Outcome(indexed, complete)), processed, added;
  }

  /** The query for any remaining missing row, after whatever others committed meanwhile. */
  method LastLook(
    db: RegistryDatabase, ghost rows0: Releases, ghost disc0: Discovery, ghost processed: seq<Id>, ghost added: set<Id>)
    returns (complete: bool)
    requires db.Valid() && Pass(rows0, disc0, db.releases, db.discovery, processed, added)
    modifies db
    ensures db.Valid() && Pass(rows0, disc0, db.releases, db.discovery, processed, added)
    ensures complete <==> MissingIds(db.releases, db.discovery) == {}
    ensures old(db.Quiet()) ==> db.Quiet() && db.releases == old(db.releases) && db.discovery == old(db.discovery)
  {
    ghost var rows, disc := db.releases, db.discovery;
    db.LetOthersCommit();
    ProgressLater(disc0, disc, db.discovery, rows, db.releases, processed, added);
    complete := db.releases.Keys - db.discovery.Keys == {};
  }
}
