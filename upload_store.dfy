/** The job table (`UploadDao`) as an in-memory map from job id to record,
    with the scans the monitor issues against it. A scan's "first" element is
    the matching record with the smallest id. */
module UploadStore {
  import opened Wrappers
  import opened UploadTypes

  type Store = map<int, Record>

  /** `listByTypeUploadStatus`: the jobs of one subject in one status. */
  function ListByTypeUploadStatus(s: Store, typeId: int, kind: Type, status: Status): set<int> {
    set id | id in s && s[id].typeId == typeId && s[id].kind == kind && s[id].status == status
  }

  /** `listByHostAndUploadStatus`: the jobs owned by one host in one status. */
  function ListByHostAndUploadStatus(s: Store, hostId: int, status: Status): set<int> {
    set id | id in s && s[id].hostId == hostId && s[id].status == status
  }

  /** `listByModeAndStatus`: the jobs of one mode in one status. */
  function ListByModeAndStatus(s: Store, mode: Mode, status: Status): set<int> {
    set id | id in s && s[id].mode == mode && s[id].status == status
  }

  /** A non-empty set of job ids has a member to pick. */
  lemma HasMember(ids: set<int>)
    requires ids != {}
    ensures exists id :: id in ids
  {
    if forall id :: id !in ids {
      assert false;
    }
  }

  /** A listing has a positive size exactly when some job is in it. */
  lemma NonEmptyListing(ids: set<int>)
    ensures |ids| > 0 <==> exists id :: id in ids
  {
    if forall id :: id !in ids {
      assert ids == {};
    }
  }

  /** The first job id in `[lo, hi)` that `listByTypeUploadStatus` would list. */
  function FirstByTypeUploadStatus(s: Store, typeId: int, kind: Type, status: Status, lo: int, hi: int): (r: Option<int>)
    decreases hi - lo
    ensures r.Some? ==> lo <= r.value < hi && r.value in ListByTypeUploadStatus(s, typeId, kind, status)
    ensures r.Some? ==> forall k :: lo <= k < r.value ==> k !in ListByTypeUploadStatus(s, typeId, kind, status)
    ensures r.None? ==> forall k :: lo <= k < hi ==> k !in ListByTypeUploadStatus(s, typeId, kind, status)
  {
    if lo >= hi then None
    else if lo in ListByTypeUploadStatus(s, typeId, kind, status) then Some(lo)
    else FirstByTypeUploadStatus(s, typeId, kind, status, lo + 1, hi)
  }

  /** Every key of the table is its row's id and lies below the next fresh id. */
  ghost predicate WellKeyed(s: Store, nextId: int) {
    0 <= nextId &&
    forall id :: id in s ==> 0 <= id < nextId && s[id].id == id
  }

  /** Over a well-keyed table, the scan of `[0, nextId)` finds a job exactly
      when the listing is non-empty, and then finds its smallest member. */
  lemma {:induction false} FirstByTypeUploadStatusComplete(s: Store, nextId: int, typeId: int, kind: Type, status: Status)
    requires WellKeyed(s, nextId)
    ensures FirstByTypeUploadStatus(s, typeId, kind, status, 0, nextId).None?
        <==> ListByTypeUploadStatus(s, typeId, kind, status) == {}
    ensures forall k :: k in ListByTypeUploadStatus(s, typeId, kind, status) ==>
              && FirstByTypeUploadStatus(s, typeId, kind, status, 0, nextId).Some?
              && FirstByTypeUploadStatus(s, typeId, kind, status, 0, nextId).value <= k
  {
    var listed := ListByTypeUploadStatus(s, typeId, kind, status);
    var r := FirstByTypeUploadStatus(s, typeId, kind, status, 0, nextId);
    forall k | k in listed
      ensures r.Some? && r.value <= k
    {
      assert 0 <= k < nextId;
    }
    if listed != {} {
      var k :| k in listed;
      assert r.Some?;
    }
  }

  /** At most one extraction URL is live per subject. */
  ghost predicate UniqueUrls(s: Store) {
    forall a, b :: a in s && b in s
      && s[a].status == DownloadUrlCreated && s[b].status == DownloadUrlCreated
      && s[a].typeId == s[b].typeId && s[a].kind == s[b].kind
      ==> a == b
  }

  /** Writing a job that holds no live URL of a subject that already has one
      keeps the invariant. */
  lemma {:induction false} WriteKeepsUniqueUrls(s: Store, id: int, r: Record)
    requires UniqueUrls(s)
    requires r.status == DownloadUrlCreated ==> ListByTypeUploadStatus(s, r.typeId, r.kind, DownloadUrlCreated) <= {id}
    ensures UniqueUrls(s[id := r])
  {
    var t := s[id := r];
    forall a, b | a in t && b in t
      && t[a].status == DownloadUrlCreated && t[b].status == DownloadUrlCreated
      && t[a].typeId == t[b].typeId && t[a].kind == t[b].kind
      ensures a == b
    {
      assert a != id ==> t[a] == s[a] && (b == id ==> a in ListByTypeUploadStatus(s, r.typeId, r.kind, DownloadUrlCreated));
      assert b != id ==> t[b] == s[b] && (a == id ==> b in ListByTypeUploadStatus(s, r.typeId, r.kind, DownloadUrlCreated));
    }
  }

  /** Writing a live URL for a subject that already has a live URL under
      another id breaks the invariant: the table gains a second one. */
  lemma SecondLiveUrl(s: Store, id: int, r: Record)
    requires r.status == DownloadUrlCreated
    requires ListByTypeUploadStatus(s, r.typeId, r.kind, DownloadUrlCreated) - {id} != {}
    ensures !UniqueUrls(s[id := r])
  {
    var others := ListByTypeUploadStatus(s, r.typeId, r.kind, DownloadUrlCreated) - {id};
    HasMember(others);
    var other :| other in others;
    var t := s[id := r];
    assert other in t && id in t && other != id;
    assert t[other] == s[other] && t[id] == r;
    assert t[other].typeId == t[id].typeId && t[other].kind == t[id].kind;
  }
}
