/** The review page (`Approvals.tsx`): the pending records are split into
    singles and batches (one per import, recognised by the `_batch_id` in a
    record's data), and approving or rejecting sets the status of exactly a
    list of record ids. */
module Approvals {
  import opened Wrappers
  import opened Text
  import opened Seqs
  import opened Objects
  import opened Records

  // ---------------------------------------------------------------------
  // Grouping the pending records

  /** A card of the batch section: the batch id, its records in listing
      order, the module and table names and the date shown. */
  datatype BatchGroup = BatchGroup(batchId: string, records: seq<Record>, moduleName: string, tableName: string, date: Option<int>)

  /** `x || fallback` for an optional name. */
  function NameOr(name: Option<string>, fallback: string): (r: string)
    ensures name.Some? && name.value != "" ==> r == name.value
    ensures name.None? || name.value == "" ==> r == fallback
  {
    if name.Some? && name.value != "" then name.value else fallback
  }

  /** The batch ids of the batched records, in listing order, repeats
      included. */
  function Tags(records: seq<Record>): (r: seq<string>)
    ensures |r| <= |records|
    decreases |records|
  {
    if records == [] then []
    else
      var n := |records| - 1;
      var init := Tags(records[..n]);
      match BatchOf(records[n].data)
      case Some(b) => init + [b]
      case None => init
  }

  /** The batch ids in order of their first occurrence: the key order of
      the `batchMap` object. */
  function BatchIds(records: seq<Record>): (r: seq<string>)
    ensures Distinct(r)
  {
    Dedup(Tags(records))
  }

  lemma {:induction false} TagsMembership(records: seq<Record>, b: string)
    ensures b in Tags(records) <==> exists k :: 0 <= k < |records| && BatchOf(records[k].data) == Some(b)
    decreases |records|
  {
    if records != [] {
      var n := |records| - 1;
      TagsMembership(records[..n], b);
      assert forall k :: 0 <= k < n ==> records[..n][k] == records[k];
    }
  }

  /** A batch has a card exactly when some listed record carries its id. */
  lemma {:induction false} BatchIdsMembership(records: seq<Record>, b: string)
    ensures b in BatchIds(records) <==> exists k :: 0 <= k < |records| && BatchOf(records[k].data) == Some(b)
  {
    TagsMembership(records, b);
    DedupMember(Tags(records), b);
  }

  /** The records without a batch id, in listing order. */
  function Singles(records: seq<Record>): (r: seq<Record>)
    ensures |r| <= |records|
    decreases |records|
  {
    if records == [] then []
    else
      var n := |records| - 1;
      var init := Singles(records[..n]);
      init + if BatchOf(records[n].data) == None then [records[n]] else []
  }

  /** The records of one batch, in listing order. */
  function Members(records: seq<Record>, b: string): (r: seq<Record>)
    ensures |r| <= |records|
    decreases |records|
  {
    if records == [] then []
    else
      var n := |records| - 1;
      var init := Members(records[..n], b);
      init + if BatchOf(records[n].data) == Some(b) then [records[n]] else []
  }

  /** The singles are exactly the listed records without a batch id. */
  lemma {:induction false} SinglesMembership(records: seq<Record>, x: Record)
    ensures x in Singles(records) <==> x in records && BatchOf(x.data) == None
    decreases |records|
  {
    if records != [] {
      var n := |records| - 1;
      SinglesMembership(records[..n], x);
      assert records == records[..n] + [records[n]];
    }
  }

  /** A batch's records are exactly the listed records carrying its id. */
  lemma {:induction false} MembersMembership(records: seq<Record>, b: string, x: Record)
    ensures x in Members(records, b) <==> x in records && BatchOf(x.data) == Some(b)
    decreases |records|
  {
    if records != [] {
      var n := |records| - 1;
      MembersMembership(records[..n], b, x);
      assert records == records[..n] + [records[n]];
    }
  }

  /** The card of a batch: names and date come from its first record, with
      `Sistema` and `Tabela` when a name is missing. */
  function MakeGroup(b: string, recs: seq<Record>): (r: BatchGroup)
    ensures r.batchId == b && r.records == recs
    ensures recs != [] ==> r.date == Some(recs[0].createdAt)
                           && r.moduleName == NameOr(recs[0].moduleName, "Sistema")
                           && r.tableName == NameOr(recs[0].tableName, "Tabela")
  {
    if recs == [] then BatchGroup(b, recs, "Sistema", "Tabela", None)
    else BatchGroup(b, recs, NameOr(recs[0].moduleName, "Sistema"), NameOr(recs[0].tableName, "Tabela"), Some(recs[0].createdAt))
  }

  /** The batch cards: one per batch id, in order of first occurrence. */
  function Groups(records: seq<Record>): (r: seq<BatchGroup>)
    ensures |r| == |BatchIds(records)|
    ensures forall j :: 0 <= j < |r| ==> r[j] == MakeGroup(BatchIds(records)[j], Members(records, BatchIds(records)[j]))
  {
    var ids := BatchIds(records);
    seq(|ids|, j requires 0 <= j < |ids| => MakeGroup(ids[j], Members(records, ids[j])))
  }

  /** `organizeData`: one pass over the listing pushes each record onto the
      singles or onto its batch's list, creating the list on the first
      record of a batch; the batch lists then become cards in key order. */
  method OrganizeData(records: seq<Record>) returns (singles: seq<Record>, batches: seq<BatchGroup>)
    ensures singles == Singles(records)
    ensures batches == Groups(records)
  {
    singles := [];
    var batchMap: Dict<seq<Record>> := Empty();
    var i := 0;
    while i < |records|
      invariant 0 <= i <= |records|
      invariant Organized(records[..i], singles, batchMap)
    {
      var r := records[i];
      assert records[..i + 1] == records[..i] + [r];
      OrganizedStep(records[..i], r, singles, batchMap);
      match BatchOf(r.data) {
        case Some(b) =>
          var current := Get(batchMap, b).GetOr([]);
          batchMap := Put(batchMap, b, current + [r]);
        case None =>
          singles := singles + [r];
      }
      i := i + 1;
    }
    assert records[..i] == records;
    batches := Cards(batchMap);
    CardsAreGroups(records, batchMap);
  }

  /** The loop's state after some records: the singles among them, and a
      map from each batch id among them, in order of first occurrence, to
      that batch's records. */
  ghost predicate Organized(done: seq<Record>, singles: seq<Record>, m: Dict<seq<Record>>) {
    && singles == Singles(done)
    && Valid(m) && m.keys == BatchIds(done)
    && forall b :: b in m.keys ==> Get(m, b) == Some(Members(done, b))
  }

  lemma {:induction false} OrganizedStep(done: seq<Record>, r: Record, singles: seq<Record>, m: Dict<seq<Record>>)
    requires Organized(done, singles, m)
    ensures match BatchOf(r.data)
      case Some(b) => Organized(done + [r], singles, Put(m, b, Get(m, b).GetOr([]) + [r]))
      case None => Organized(done + [r], singles + [r], m)
  {
    SinglesAppend(done, r);
    match BatchOf(r.data) {
      case Some(b) =>
        BatchMapStep(done, r, b, m);
      case None =>
        UnbatchedStep(done, r);
    }
  }

  /** One card per batch key, in key order. */
  function Cards(m: Dict<seq<Record>>): (r: seq<BatchGroup>)
    requires Valid(m)
    ensures |r| == |m.keys|
    ensures forall j :: 0 <= j < |r| ==> r[j] == MakeGroup(m.keys[j], m.values[m.keys[j]])
  {
    seq(|m.keys|, j requires 0 <= j < |m.keys| => MakeGroup(m.keys[j], m.values[m.keys[j]]))
  }

  lemma {:induction false} CardsAreGroups(records: seq<Record>, m: Dict<seq<Record>>)
    requires Valid(m) && m.keys == BatchIds(records)
    requires forall b :: b in m.keys ==> Get(m, b) == Some(Members(records, b))
    ensures Cards(m) == Groups(records)
  {
    forall j | 0 <= j < |m.keys|
      ensures Cards(m)[j] == Groups(records)[j]
    {
      assert m.keys[j] in m.keys;
    }
  }

  /** What one more record does to the spec functions. */
  lemma {:induction false} SinglesAppend(done: seq<Record>, r: Record)
    ensures Singles(done + [r]) == Singles(done) + if BatchOf(r.data) == None then [r] else []
  {
    assert (done + [r])[..|done|] == done;
  }

  lemma {:induction false} MembersAppend(done: seq<Record>, r: Record, c: string)
    ensures Members(done + [r], c) == Members(done, c) + if BatchOf(r.data) == Some(c) then [r] else []
  {
    assert (done + [r])[..|done|] == done;
  }

  lemma {:induction false} TagsAppend(done: seq<Record>, r: Record)
    ensures Tags(done + [r]) == Tags(done) + match BatchOf(r.data) case Some(b) => [b] case None => []
  {
    assert (done + [r])[..|done|] == done;
  }

  /** Pushing a batched record onto its list keeps the map equal to the
      batches of the records seen so far. */
  lemma {:induction false} BatchMapStep(done: seq<Record>, r: Record, b: string, m: Dict<seq<Record>>)
    requires BatchOf(r.data) == Some(b)
    requires Valid(m) && m.keys == BatchIds(done)
    requires forall c :: c in m.keys ==> Get(m, c) == Some(Members(done, c))
    ensures var m' := Put(m, b, Get(m, b).GetOr([]) + [r]);
      && Valid(m') && m'.keys == BatchIds(done + [r])
      && forall c :: c in m'.keys ==> Get(m', c) == Some(Members(done + [r], c))
  {
    BatchIdsStep(done, r, b);
    var m' := Put(m, b, Get(m, b).GetOr([]) + [r]);
    forall c | c in m'.keys
      ensures Get(m', c) == Some(Members(done + [r], c))
    {
      MembersAppend(done, r, c);
      if c == b {
        if b !in m.keys {
          NoMembersYet(done, b);
        }
        PushedEntry(m, b, r, Members(done, b));
      } else {
        assert c in m.keys;
        assert Get(m', c) == Get(m, c);
        assert Get(m, c) == Some(Members(done, c));
        assert BatchOf(r.data) != Some(c);
        assert Members(done + [r], c) == Members(done, c);
      }
    }
  }

  lemma {:induction false} PushedEntry(m: Dict<seq<Record>>, b: string, r: Record, before: seq<Record>)
    requires Valid(m)
    requires b in m.keys ==> Get(m, b) == Some(before)
    requires b !in m.keys ==> before == []
    ensures Get(Put(m, b, Get(m, b).GetOr([]) + [r]), b) == Some(before + [r])
  {
  }

  /** A record without a batch id leaves the batches as they were. */
  lemma {:induction false} UnbatchedStep(done: seq<Record>, r: Record)
    requires BatchOf(r.data) == None
    ensures BatchIds(done + [r]) == BatchIds(done)
    ensures forall c :: Members(done + [r], c) == Members(done, c)
  {
    TagsAppend(done, r);
    assert Tags(done + [r]) == Tags(done);
    forall c
      ensures Members(done + [r], c) == Members(done, c)
    {
      MembersAppend(done, r, c);
    }
  }

  /** A batch id is a new key exactly when no earlier record carried it. */
  lemma {:induction false} BatchIdsStep(done: seq<Record>, r: Record, b: string)
    requires BatchOf(r.data) == Some(b)
    ensures BatchIds(done + [r]) == if b in BatchIds(done) then BatchIds(done) else BatchIds(done) + [b]
  {
    TagsAppend(done, r);
    DedupOfAppend(Tags(done), b);
    DedupMember(Tags(done), b);
  }

  /** A batch id no earlier record carried has no members yet. */
  lemma {:induction false} NoMembersYet(done: seq<Record>, b: string)
    requires b !in BatchIds(done)
    ensures Members(done, b) == []
  {
    if Members(done, b) != [] {
      var x := Members(done, b)[0];
      MembersMembership(done, b, x);
      BatchIdsMembership(done, b);
    }
  }

  /** Sum of the sizes of the given batches. */
  function BatchedCount(records: seq<Record>, ids: seq<string>): nat
    decreases |ids|
  {
    if ids == [] then 0 else |Members(records, ids[0])| + BatchedCount(records, ids[1..])
  }

  /** Every record of the listing is in exactly one place: the singles or
      one batch. */
  lemma {:induction false} OrganizeIsPartition(records: seq<Record>)
    ensures |Singles(records)| + BatchedCount(records, BatchIds(records)) == |records|
  {
    var ids := BatchIds(records);
    forall k | 0 <= k < |records| && BatchOf(records[k].data).Some?
      ensures BatchOf(records[k].data).value in ids
    {
      BatchIdsMembership(records, BatchOf(records[k].data).value);
    }
    PartitionCount(records, ids);
  }

  lemma {:induction false} PartitionCount(records: seq<Record>, ids: seq<string>)
    requires Distinct(ids)
    requires forall k :: 0 <= k < |records| && BatchOf(records[k].data).Some? ==> BatchOf(records[k].data).value in ids
    ensures |Singles(records)| + BatchedCount(records, ids) == |records|
    decreases |records|
  {
    if records == [] {
      BatchedCountEmpty(ids);
    } else {
      var n := |records| - 1;
      var init := records[..n];
      assert forall k :: 0 <= k < n ==> init[k] == records[k];
      PartitionCount(init, ids);
      BatchedCountStep(init, records[n], ids);
      SinglesAppend(init, records[n]);
      InitThenLast(records);
    }
  }

  /** No records, no batch counts: the base case of `PartitionCount`. */
  lemma {:induction false} BatchedCountEmpty(ids: seq<string>)
    ensures BatchedCount([], ids) == 0
    decreases |ids|
  {
    if ids != [] {
      BatchedCountEmpty(ids[1..]);
    }
  }

  /** One more record adds one to the batch counts exactly when its batch
      id is among the (distinct) ids. */
  lemma {:induction false} BatchedCountStep(init: seq<Record>, r: Record, ids: seq<string>)
    requires Distinct(ids)
    ensures BatchedCount(init + [r], ids) == BatchedCount(init, ids)
              + if BatchOf(r.data).Some? && BatchOf(r.data).value in ids then 1 else 0
    decreases |ids|
  {
    if ids != [] {
      MembersAppend(init, r, ids[0]);
      assert Distinct(ids[1..]) by {
        forall i, j | 0 <= i < j < |ids[1..]|
          ensures ids[1..][i] != ids[1..][j]
        {
          assert ids[1..][i] == ids[i + 1] && ids[1..][j] == ids[j + 1];
        }
      }
      BatchedCountStep(init, r, ids[1..]);
      assert ids[0] !in ids[1..] by {
        forall j | 0 <= j < |ids[1..]|
          ensures ids[1..][j] != ids[0]
        {
          assert ids[1..][j] == ids[j + 1];
        }
      }
      assert ids == [ids[0]] + ids[1..];
    }
  }

  /** The listing comes sorted by creation date, newest first. */
  predicate NewestFirst(records: seq<Record>) {
    forall i, j :: 0 <= i < j < |records| ==> records[i].createdAt >= records[j].createdAt
  }

  lemma {:induction false} MembersNewestFirst(records: seq<Record>, b: string)
    requires NewestFirst(records)
    ensures NewestFirst(Members(records, b))
    decreases |records|
  {
    if records != [] {
      var n := |records| - 1;
      var init := records[..n];
      assert NewestFirst(init) by {
        assert forall k :: 0 <= k < n ==> init[k] == records[k];
      }
      MembersNewestFirst(init, b);
      var m := Members(init, b);
      forall x | x in m
        ensures x.createdAt >= records[n].createdAt
      {
        MembersMembership(init, b, x);
        var k :| 0 <= k < n && init[k] == x;
      }
    }
  }

  /** With the listing newest first, the date on a batch card is that of
      the batch's newest record, not its oldest. */
  lemma {:induction false} GroupDateIsNewest(records: seq<Record>, j: nat)
    requires NewestFirst(records) && j < |Groups(records)|
    ensures var g := Groups(records)[j];
      g.records != [] && g.date.Some? && forall x :: x in g.records ==> x.createdAt <= g.date.value
  {
    var ids := BatchIds(records);
    assert ids[j] in ids;
    BatchIdsMembership(records, ids[j]);
    var k :| 0 <= k < |records| && BatchOf(records[k].data) == Some(ids[j]);
    MembersMembership(records, ids[j], records[k]);
    MembersNewestFirst(records, ids[j]);
    var g := Groups(records)[j];
    forall x | x in g.records
      ensures x.createdAt <= g.date.value
    {
      var p :| 0 <= p < |g.records| && g.records[p] == x;
      if p > 0 {
        assert g.records[0].createdAt >= g.records[p].createdAt;
      }
    }
  }

  /** Cards follow the order in which their batch ids first appear. */
  lemma GroupsInFirstOccurrenceOrder(records: seq<Record>, i: nat, j: nat)
    requires i < j < |Tags(records)|
    requires Tags(records)[i] !in Tags(records)[..i] && Tags(records)[j] !in Tags(records)[..j]
    ensures exists a, b :: 0 <= a < b < |Groups(records)|
              && Groups(records)[a].batchId == Tags(records)[i] && Groups(records)[b].batchId == Tags(records)[j]
  {
    var tags := Tags(records);
    DedupOrder(tags, i, j);
    var a, b :| 0 <= a < b < |Dedup(tags)| && Dedup(tags)[a] == tags[i] && Dedup(tags)[b] == tags[j];
    assert Groups(records)[a].batchId == tags[i];
    assert Groups(records)[b].batchId == tags[j];
  }

  // ---------------------------------------------------------------------
  // Approving and rejecting

  /** The ids a card's buttons pass: every record of a batch, or the one
      record of a single. */
  function RecordIds(recs: seq<Record>): (r: seq<string>)
    ensures |r| == |recs| && forall i :: 0 <= i < |recs| ==> r[i] == recs[i].id
  {
    seq(|recs|, i requires 0 <= i < |recs| => recs[i].id)
  }

  /** The update behind `handleApprove`: status `approved`, the reviewer
      and the time on the listed records, whatever their status was. */
  function ApproveAll(store: map<string, Record>, ids: seq<string>, user: Option<string>, now: int): (r: map<string, Record>)
    ensures r.Keys == store.Keys
    ensures forall k :: k in store && k in ids ==>
              && r[k].status == Approved && r[k].approvedBy == user && r[k].updatedAt == Some(now)
              && r[k].(status := store[k].status, approvedBy := store[k].approvedBy, updatedAt := store[k].updatedAt) == store[k]
    ensures forall k :: k in store && k !in ids ==> r[k] == store[k]
  {
    map k | k in store :: if k in ids then store[k].(status := Approved, approvedBy := user, updatedAt := Some(now)) else store[k]
  }

  /** The update behind `handleRejectConfirm`: status `rejected`, the
      reason, the reviewer and the time on the listed records. */
  function RejectAll(store: map<string, Record>, ids: seq<string>, reason: string, user: Option<string>, now: int): (r: map<string, Record>)
    ensures r.Keys == store.Keys
    ensures forall k :: k in store && k in ids ==>
              && r[k].status == Rejected && r[k].rejectionReason == Some(reason)
              && r[k].approvedBy == user && r[k].updatedAt == Some(now)
              && r[k].(status := store[k].status, rejectionReason := store[k].rejectionReason,
                       approvedBy := store[k].approvedBy, updatedAt := store[k].updatedAt) == store[k]
    ensures forall k :: k in store && k !in ids ==> r[k] == store[k]
  {
    map k | k in store :: if k in ids then store[k].(status := Rejected, rejectionReason := Some(reason), approvedBy := user, updatedAt := Some(now)) else store[k]
  }

  /** Approving the same ids again changes nothing more. */
  lemma ApproveIdempotent(store: map<string, Record>, ids: seq<string>, user: Option<string>, now: int)
    ensures ApproveAll(ApproveAll(store, ids, user, now), ids, user, now) == ApproveAll(store, ids, user, now)
  {
    var once := ApproveAll(store, ids, user, now);
    var twice := ApproveAll(once, ids, user, now);
    forall k | k in once
      ensures twice[k] == once[k]
    {
    }
  }

  /** The status before is not checked: a record rejected earlier is
      approved, and a later rejection overrides an approval. */
  lemma ReviewsOverride(store: map<string, Record>, ids: seq<string>, reason: string, user: Option<string>, now: int, k: string)
    requires k in store && k in ids
    ensures ApproveAll(RejectAll(store, ids, reason, user, now), ids, user, now)[k].status == Approved
    ensures RejectAll(ApproveAll(store, ids, user, now), ids, reason, user, now)[k].status == Rejected
  {
  }

  /** The records of a listing agree with the store and no two listed
      records share an id. */
  predicate ListedFrom(records: seq<Record>, store: map<string, Record>) {
    && (forall i :: 0 <= i < |records| ==> records[i].id in store && store[records[i].id] == records[i])
    && (forall i, j :: 0 <= i < j < |records| ==> records[i].id != records[j].id)
  }

  /** Approving a batch card approves every record of that batch and leaves
      every other listed record as it was. */
  lemma {:induction false} BatchApprovalIsExact(records: seq<Record>, store: map<string, Record>, b: string,
                                                user: Option<string>, now: int, x: Record)
    requires ListedFrom(records, store) && x in records
    ensures var after := ApproveAll(store, RecordIds(Members(records, b)), user, now);
      (BatchOf(x.data) == Some(b) ==> after[x.id].status == Approved)
      && (BatchOf(x.data) != Some(b) ==> after[x.id] == x)
  {
    var m := Members(records, b);
    var ids := RecordIds(m);
    var i :| 0 <= i < |records| && records[i] == x;
    MembersMembership(records, b, x);
    if BatchOf(x.data) == Some(b) {
      var p :| 0 <= p < |m| && m[p] == x;
      assert ids[p] == x.id;
    } else {
      assert x.id !in ids by {
        if x.id in ids {
          var p :| 0 <= p < |ids| && ids[p] == x.id;
          MembersMembership(records, b, m[p]);
        }
      }
    }
  }

  datatype RejectKind = SingleReject | BatchReject

  /** The records the rejection dialog is open for. */
  datatype RejectTarget = RejectTarget(ids: seq<string>, kind: RejectKind)

  /** The review page's state: the store's records by id, the rejection
      dialog's target and the reason typed in it. */
  class ReviewBoard {
    var store: map<string, Record>
    var rejectTarget: Option<RejectTarget>
    var rejectReason: string

    constructor (initial: map<string, Record>)
      ensures store == initial && rejectTarget == None && rejectReason == ""
    {
      store := initial;
      rejectTarget := None;
      rejectReason := "";
    }

    /** `handleApprove`: nothing for an empty list; otherwise the update,
        unless the store reports an error. */
    method Approve(ids: seq<string>, user: Option<string>, now: int, fails: bool)
      modifies this
      ensures store == if ids == [] || fails then old(store) else ApproveAll(old(store), ids, user, now)
      ensures rejectTarget == old(rejectTarget) && rejectReason == old(rejectReason)
    {
      if ids == [] {
        return;
      }
      if !fails {
        store := ApproveAll(store, ids, user, now);
      }
    }

    /** A card's reject button opens the dialog for its ids. */
    method OpenReject(ids: seq<string>, kind: RejectKind)
      modifies this
      ensures rejectTarget == Some(RejectTarget(ids, kind))
      ensures store == old(store) && rejectReason == old(rejectReason)
    {
      rejectTarget := Some(RejectTarget(ids, kind));
    }

    /** Closing the dialog drops the target and keeps the typed reason. */
    method CancelReject()
      modifies this
      ensures rejectTarget == None
      ensures store == old(store) && rejectReason == old(rejectReason)
    {
      rejectTarget := None;
    }

    method TypeReason(reason: string)
      modifies this
      ensures rejectReason == reason
      ensures store == old(store) && rejectTarget == old(rejectTarget)
    {
      rejectReason := reason;
    }

    /** `handleRejectConfirm`: a blank reason or a closed dialog does
        nothing; otherwise the listed records are rejected with the reason
        as typed, and the dialog is closed and the reason cleared, unless
        the store reports an error, which changes nothing. */
    method ConfirmReject(user: Option<string>, now: int, fails: bool)
      modifies this
      ensures IsBlank(old(rejectReason)) || old(rejectTarget).None? || fails ==>
                store == old(store) && rejectTarget == old(rejectTarget) && rejectReason == old(rejectReason)
      ensures !IsBlank(old(rejectReason)) && old(rejectTarget).Some? && !fails ==>
                store == RejectAll(old(store), old(rejectTarget).value.ids, old(rejectReason), user, now)
                && rejectTarget == None && rejectReason == ""
    {
      if IsBlank(rejectReason) || rejectTarget.None? {
        return;
      }
      if fails {
        return;
      }
      store := RejectAll(store, rejectTarget.value.ids, rejectReason, user, now);
      rejectTarget := None;
      rejectReason := "";
    }
  }

  // ---------------------------------------------------------------------
  // What the cards show

  /** An entry the cards show: any key but `_batch_id`. */
  predicate NotBatch(e: (string, string)) {
    e.0 != BatchKey
  }

  /** The entries of a record's data in key order, without `_batch_id`:
      `Object.entries(d)` filtered. */
  function VisibleEntries(d: Dict<string>): (r: seq<(string, string)>)
    ensures forall e :: e in r ==> e.0 != BatchKey && Get(d, e.0) == Some(e.1)
    ensures Valid(d) ==> forall k :: k in d.keys && k != BatchKey ==> exists e :: e in r && e.0 == k
    ensures Valid(d) ==> r == Filter(Entries(d), NotBatch)
  {
    assert Valid(d) ==> Entries(d) == PairsOf(d.keys, d);
    VisibleOf(d.keys, d)
  }

  function VisibleOf(keys: seq<string>, d: Dict<string>): (r: seq<(string, string)>)
    ensures forall e :: e in r ==> e.0 != BatchKey && Get(d, e.0) == Some(e.1)
    ensures forall k :: k in keys && k != BatchKey && k in d.values ==> exists e :: e in r && e.0 == k
    ensures (forall k :: k in keys ==> k in d.values) ==> r == Filter(PairsOf(keys, d), NotBatch)
    decreases |keys|
  {
    if keys == [] then []
    else
      var rest := VisibleOf(keys[1..], d);
      assert forall k :: k in keys && k != keys[0] ==> k in keys[1..];
      assert (forall k :: k in keys ==> k in d.values) ==> PairsOf(keys, d)[1..] == PairsOf(keys[1..], d);
      if keys[0] != BatchKey && keys[0] in d.values then [(keys[0], d.values[keys[0]])] + rest else rest
  }

  /** The sample inside a batch card: the first 5 records, each with its
      first 4 visible entries. */
  function BatchPreview(g: BatchGroup): (r: seq<seq<(string, string)>>)
    ensures |r| <= 5 && |r| == |Take(g.records, 5)|
    ensures forall i :: 0 <= i < |r| ==> |r[i]| <= 4 && r[i] == Take(VisibleEntries(g.records[i].data), 4)
    ensures forall i, e :: 0 <= i < |r| && e in r[i] ==> e.0 != BatchKey
  {
    var shown := Take(g.records, 5);
    seq(|shown|, i requires 0 <= i < |shown| => Take(VisibleEntries(shown[i].data), 4))
  }

  /** A key that names a title: it contains `nome`, `titulo`, `assunto` or
      `desc`, ignoring case. */
  predicate IsTitleKey(k: string) {
    var l := ToLower(k);
    Contains(l, "nome") || Contains(l, "titulo") || Contains(l, "assunto") || Contains(l, "desc")
  }

  /** The first entry whose key looks like a title. */
  function FirstTitled(entries: seq<(string, string)>): (r: Option<nat>)
    ensures r.Some? ==> r.value < |entries| && IsTitleKey(entries[r.value].0)
                        && forall j :: 0 <= j < r.value ==> !IsTitleKey(entries[j].0)
    ensures r.None? ==> forall j :: 0 <= j < |entries| ==> !IsTitleKey(entries[j].0)
    decreases |entries|
  {
    if entries == [] then None
    else if IsTitleKey(entries[0].0) then Some(0)
    else
      match FirstTitled(entries[1..])
      case Some(i) => Some(i + 1)
      case None => None
  }

  /** The title of a single's card: the value of the first visible entry
      whose key mentions a name, title, subject or description; else the
      first visible entry's value; else `Registro #` and the id's first 4
      characters. The batch id is never the title. */
  function SingleTitle(rec: Record): (r: string)
    ensures var es := VisibleEntries(rec.data);
      && (FirstTitled(es).Some? ==> r == es[FirstTitled(es).value].1)
      && (FirstTitled(es).None? && es != [] ==> r == es[0].1)
      && (es == [] ==> r == "Registro #" + Take(rec.id, 4))
    ensures (exists e :: e in VisibleEntries(rec.data) && e.1 == r && Get(rec.data, e.0) == Some(r) && e.0 != BatchKey)
            || r == "Registro #" + Take(rec.id, 4)
  {
    var es := VisibleEntries(rec.data);
    match FirstTitled(es)
    case Some(i) => assert es[i] in es; es[i].1
    case None => if es != [] then assert es[0] in es; es[0].1 else "Registro #" + Take(rec.id, 4)
  }
}
