/** The upload monitor (`UploadMonitorImpl`): starts uploads and extraction
    sessions, keeps the registry of outstanding upload listeners, forces jobs
    of a reconnecting host into error, and expires old download URLs.

    The job table is the `store` field, a map from job id to record with a
    fresh-id counter; the listener registry is the `listeners` field, keyed by
    job id. The clock is an integer number of milliseconds (`now`), and every
    answer of a collaborator (agent dispatch, host and storage-VM lookups) is
    an input of the operation that asks for it. */
module UploadMonitorImpl {
  import opened Wrappers
  import opened UploadTypes
  import opened UploadStore
  import CopyUrl

  /** The expiration interval, in seconds, `configure` takes when the setting is absent. */
  const DefaultUrlExpirationInterval := 14400

  /** The error text written by the reconnect sweep. */
  const SyncErrorMessage := "Could not complete the upload."

  /** The error text when no storage VM serves a storage host. */
  function NoSsvmMessage(host: string): string {
    "There is no secondary storage VM for secondary storage host " + host
  }

  /** The error text when the symlink command cannot be dispatched. */
  function LinkErrorMessage(kind: Type, id: int, message: string): string {
    "Unable to create a link for " + TypeName(kind) + " id:" + IntToString(id) + "," + message
  }

  /** The error text when the zone has no storage servers. */
  function NoStorageServerMessage(dataCenterId: int): string {
    "No Storage Server found at the datacenter - " + IntToString(dataCenterId)
  }

  /** The error text when the zone has no running storage VM. */
  function NoRunningSsvmMessage(dataCenterId: int): string {
    "Couldnt find a running SSVM in the zone" + IntToString(dataCenterId) + ". Couldnt create the extraction URL."
  }

  const NullPublicIpMessage := "A running secondary storage vm has a null public ip?"

  /** `getTimeDiff`: whole seconds from `date` to `now`, both in milliseconds,
      with Java's `long` division, which truncates toward zero. */
  function TimeDiff(now: int, date: int): (r: int)
    ensures now >= date ==> 0 <= r && r * 1000 <= now - date < r * 1000 + 1000
    ensures now < date ==> r <= 0 && r * 1000 - 1000 < now - date <= r * 1000
  {
    var d := now - date;
    if d >= 0 then d / 1000 else -((-d) / 1000)
  }

  /** With a non-negative threshold, a URL is older than the threshold exactly
      when at least one second more than the threshold has elapsed. */
  lemma ExpiryThreshold(now: int, date: int, limit: int)
    requires limit >= 0
    ensures TimeDiff(now, date) > limit <==> now - date >= (limit + 1) * 1000
  {
  }

  /** With a threshold of 100 seconds, a URL updated 150 seconds ago has
      expired and one updated 50 seconds ago has not. */
  lemma ExpiryExample(now: int)
    ensures TimeDiff(now, now - 150000) > 100
    ensures !(TimeDiff(now, now - 50000) > 100)
  {
  }

  /** A job the expiry sweep selects: a created download URL older than `limit` seconds. */
  predicate ExpiredUrl(r: Record, now: int, limit: int) {
    r.mode == HttpDownload && r.status == DownloadUrlCreated && TimeDiff(now, r.lastUpdated) > limit
  }

  /** For a non-negative limit, the sweep selects exactly the created download
      URLs last updated at least `limit + 1` seconds ago. */
  lemma ExpiredUrlMeaning(r: Record, now: int, limit: int)
    requires limit >= 0
    ensures ExpiredUrl(r, now, limit) <==>
      r.mode == HttpDownload && r.status == DownloadUrlCreated && now - r.lastUpdated >= (limit + 1) * 1000
  {
    ExpiryThreshold(now, r.lastUpdated, limit);
  }

  /** A job at which the expiry sweep stops: a selected job whose storage host
      has no row in the hosts table. */
  predicate StopsSweep(r: Record, now: int, limit: int, hostExists: int -> bool) {
    ExpiredUrl(r, now, limit) && !hostExists(r.hostId)
  }

  /** A job the expiry sweep removes when it reaches it: selected, its host
      known and served by a storage VM, and the deletion dispatched. */
  predicate Deletable(id: int, r: Record, now: int, limit: int, hostExists: int -> bool,
                      pickSsvm: int -> Option<int>, deleteSent: int -> bool) {
    ExpiredUrl(r, now, limit) && hostExists(r.hostId) && pickSsvm(id).Some? && deleteSent(id)
  }

  /** The expiry sweep's progress over the snapshot `jobs` once it has walked
      the ids below `i` without stopping: exactly the deletable jobs below `i`
      are gone, and every other job is as it was. */
  ghost predicate SweptBelow(jobs: Store, store: Store, i: int, now: int, limit: int, hostExists: int -> bool,
                             pickSsvm: int -> Option<int>, deleteSent: int -> bool) {
    && store.Keys <= jobs.Keys
    && (forall id :: id in store ==> store[id] == jobs[id])
    && (forall id :: id in jobs ==>
          (id !in store <==> id < i && Deletable(id, jobs[id], now, limit, hostExists, pickSsvm, deleteSent)))
    && (forall j :: j in jobs && j < i ==> !StopsSweep(jobs[j], now, limit, hostExists))
  }

  /** One step of the sweep: the job at `i`, which does not stop it, is removed iff deletable. */
  lemma SweepStep(jobs: Store, store: Store, i: int, now: int, limit: int, hostExists: int -> bool,
                  pickSsvm: int -> Option<int>, deleteSent: int -> bool)
    requires SweptBelow(jobs, store, i, now, limit, hostExists, pickSsvm, deleteSent)
    requires i in jobs ==> !StopsSweep(jobs[i], now, limit, hostExists)
    ensures SweptBelow(jobs,
                       if i in jobs && Deletable(i, jobs[i], now, limit, hostExists, pickSsvm, deleteSent)
                       then store - {i} else store,
                       i + 1, now, limit, hostExists, pickSsvm, deleteSent)
  {
  }

  /** A sweep that stops at `i` removed exactly the deletable jobs before the first stopping job. */
  lemma SweepStopped(jobs: Store, store: Store, i: int, now: int, limit: int, hostExists: int -> bool,
                     pickSsvm: int -> Option<int>, deleteSent: int -> bool)
    requires SweptBelow(jobs, store, i, now, limit, hostExists, pickSsvm, deleteSent)
    requires i in jobs && StopsSweep(jobs[i], now, limit, hostExists)
    ensures !forall id :: id in jobs ==> !StopsSweep(jobs[id], now, limit, hostExists)
    ensures forall id :: id in jobs ==>
      (id !in store <==>
        && Deletable(id, jobs[id], now, limit, hostExists, pickSsvm, deleteSent)
        && forall j :: j in jobs && j < id ==> !StopsSweep(jobs[j], now, limit, hostExists))
  {
    forall id | id in jobs && id > i
      ensures !forall j :: j in jobs && j < id ==> !StopsSweep(jobs[j], now, limit, hostExists)
    {
      assert i in jobs && i < id;
    }
  }

  /** A sweep that walks every id without stopping removed exactly the deletable jobs. */
  lemma SweepFinished(jobs: Store, store: Store, n: int, now: int, limit: int, hostExists: int -> bool,
                      pickSsvm: int -> Option<int>, deleteSent: int -> bool)
    requires SweptBelow(jobs, store, n, now, limit, hostExists, pickSsvm, deleteSent)
    requires forall id :: id in jobs ==> id < n
    ensures forall id :: id in jobs ==> !StopsSweep(jobs[id], now, limit, hostExists)
    ensures forall id :: id in jobs ==>
      (id !in store <==>
        && Deletable(id, jobs[id], now, limit, hostExists, pickSsvm, deleteSent)
        && forall j :: j in jobs && j < id ==> !StopsSweep(jobs[j], now, limit, hostExists))
  {
  }

  /** Removing jobs keeps at most one live URL per subject. */
  lemma RemovalKeepsUniqueUrls(s: Store, t: Store)
    requires t.Keys <= s.Keys && forall id :: id in t ==> t[id] == s[id]
    ensures UniqueUrls(s) ==> UniqueUrls(t)
  {
  }

  /** A job the reconnect sweep of host `hostId` selects. */
  predicate InProgressOn(r: Record, hostId: int) {
    r.hostId == hostId && (r.status == UploadInProgress || r.status == CopyInProgress)
  }

  /** A job after the reconnect sweep forced it into error. */
  function SyncFailed(r: Record, now: int): (f: Record)
    ensures f.status == UploadError && !InProgressOn(f, r.hostId)
    ensures f.errorString == Some(SyncErrorMessage) && f.lastUpdated == now
    ensures f.(status := r.status, errorString := r.errorString, lastUpdated := r.lastUpdated) == r
  {
    r.(status := UploadError, errorString := Some(SyncErrorMessage), lastUpdated := now)
  }

  /** The success write of a download-URL operation. */
  function UrlCreated(r: Record, url: string, now: int): (f: Record)
    ensures f.status == DownloadUrlCreated && f.uploadUrl == Some(url) && f.lastUpdated == now
    ensures f.(status := r.status, uploadUrl := r.uploadUrl, lastUpdated := r.lastUpdated) == r
  {
    r.(lastUpdated := now, uploadUrl := Some(url), status := DownloadUrlCreated)
  }

  /** The error write of a download-URL operation. */
  function UrlFailed(r: Record, errorString: string, now: int): (f: Record)
    ensures f.status == Error && f.errorString == Some(errorString) && f.lastUpdated == now
    ensures f.(status := r.status, errorString := r.errorString, lastUpdated := r.lastUpdated) == r
  {
    r.(lastUpdated := now, errorString := Some(errorString), status := Error)
  }

  /** A volume with a live download URL in job 0 and a not-yet-uploaded job 1:
      finishing a URL for job 1, as `createVolumeDownloadURL` does when it
      succeeds, leaves the table with two live URLs for the volume. */
  lemma VolumeUrlReissueExample(url: string, now: int)
    ensures var live := Record(0, 1, 7, Volume, HttpDownload, DownloadUrlCreated, 0, Some("u"), None, None);
            var idle := Record(1, 1, 7, Volume, HttpDownload, NotUploaded, 0, None, None, None);
            var s := map[0 := live, 1 := idle];
            UniqueUrls(s) && !UniqueUrls(s[1 := UrlCreated(idle, url, now)])
  {
    var live := Record(0, 1, 7, Volume, HttpDownload, DownloadUrlCreated, 0, Some("u"), None, None);
    var idle := Record(1, 1, 7, Volume, HttpDownload, NotUploaded, 0, None, None, None);
    var s := map[0 := live, 1 := idle];
    assert 0 in ListByTypeUploadStatus(s, 7, Volume, DownloadUrlCreated) - {1};
    SecondLiveUrl(s, 1, UrlCreated(idle, url, now));
  }

  class UploadMonitor {
    /** The job table. */
    var store: Store
    /** The id the next persisted job receives. */
    var nextId: int
    /** The registry of outstanding upload listeners, keyed by job id. */
    var listeners: map<int, Listener>
    /** `secstorage.encrypt.copy`. */
    const sslCopy: bool
    /** `extract.url.expiration.interval`, in seconds. */
    const urlExpirationInterval: int

    ghost predicate Valid()
      reads this
    {
      WellKeyed(store, nextId)
    }

    /** A monitor over an empty job table, as `configure` leaves it. */
    constructor (sslCopy: bool, urlExpirationInterval: int)
      ensures Valid()
      ensures store == map[] && listeners == map[]
      ensures this.sslCopy == sslCopy && this.urlExpirationInterval == urlExpirationInterval
    {
      this.sslCopy := sslCopy;
      this.urlExpirationInterval := urlExpirationInterval;
      store := map[];
      nextId := 1;
      listeners := map[];
    }

    /** `isTypeUploadInProgress`: whether the subject has an upload under way.
        A copy in progress counts only for volumes. */
    function IsTypeUploadInProgress(typeId: int, kind: Type): (b: bool)
      reads this
      ensures b <==>
        || (exists id :: id in store && store[id].typeId == typeId && store[id].kind == kind
                                       && store[id].status == UploadInProgress)
        || (kind == Volume && exists id :: id in store && store[id].typeId == typeId && store[id].kind == kind
                                                        && store[id].status == CopyInProgress)
    {
      var uploading := ListByTypeUploadStatus(store, typeId, kind, UploadInProgress);
      var copying := ListByTypeUploadStatus(store, typeId, kind, CopyInProgress);
      NonEmptyListing(uploading);
      NonEmptyListing(copying);
      if |uploading| > 0 then true
      else if kind == Volume && |copying| > 0 then true
      else
        assert forall id | id in store && store[id].typeId == typeId && store[id].kind == kind
          :: store[id].status == UploadInProgress ==> id in uploading;
        assert forall id | id in store && store[id].typeId == typeId && store[id].kind == kind
          :: store[id].status == CopyInProgress ==> id in copying;
        false
    }

    /** A monitor configured with no settings: `secstorage.encrypt.copy` absent
        parses as false, and the expiration interval takes its default. */
    constructor Defaults()
      ensures Valid()
      ensures store == map[] && listeners == map[]
      ensures !sslCopy && urlExpirationInterval == DefaultUrlExpirationInterval
    {
      sslCopy := false;
      urlExpirationInterval := DefaultUrlExpirationInterval;
      store := map[];
      nextId := 1;
      listeners := map[];
    }

    /** `createNewUploadEntry`: persists a new job under a fresh id and returns it. */
    method CreateNewUploadEntry(hostId: int, typeId: int, uploadState: Status, kind: Type,
                                uploadUrl: Option<string>, mode: Mode, now: int) returns (r: Record)
      requires Valid()
      modifies this`store, this`nextId
      ensures Valid()
      ensures r == Record(old(nextId), hostId, typeId, kind, mode, uploadState, now, uploadUrl, None, None)
      ensures r.id !in old(store)
      ensures store == old(store)[r.id := r] && nextId == old(nextId) + 1
      // nothing stops a caller from creating a second live URL of a subject
      ensures uploadState == DownloadUrlCreated && ListByTypeUploadStatus(old(store), typeId, kind, DownloadUrlCreated) != {} ==>
        !UniqueUrls(store)
      ensures uploadState != DownloadUrlCreated || ListByTypeUploadStatus(old(store), typeId, kind, DownloadUrlCreated) == {} ==>
        (UniqueUrls(old(store)) ==> UniqueUrls(store))
    {
      r := Record(nextId, hostId, typeId, kind, mode, uploadState, now, uploadUrl, None, None);
      assert r.id !in store;
      if uploadState == DownloadUrlCreated && ListByTypeUploadStatus(store, typeId, kind, DownloadUrlCreated) != {} {
        assert r.id !in ListByTypeUploadStatus(store, typeId, kind, DownloadUrlCreated);
        SecondLiveUrl(store, r.id, r);
      } else if UniqueUrls(store) {
        WriteKeepsUniqueUrls(store, r.id, r);
      }
      store := store[r.id := r];
      nextId := nextId + 1;
    }

    /** `extractVolume`: marks the job not yet uploaded and registers its
        listener, then dispatches; a failed dispatch only marks the listener
        disconnected, the call itself still returns normally. */
    method ExtractVolume(uploadId: int, sserverId: int, url: string, send: SendOutcome)
      requires Valid()
      modifies this`store, this`listeners
      ensures Valid()
      ensures store == if uploadId in old(store) then old(store)[uploadId := old(store)[uploadId].(status := NotUploaded)]
                       else old(store)
      ensures listeners == old(listeners)[uploadId := Listener(sserverId, uploadId, Volume, url, send.Unavailable?)]
    {
      if uploadId in store {
        store := store[uploadId := store[uploadId].(status := NotUploaded)];
      }
      var listener := Listener(sserverId, uploadId, Volume, url, false);
      listeners := listeners[uploadId := listener];
      if send.Unavailable? {
        listeners := listeners[uploadId := listener.(disconnected := true)];
      }
    }

    /** `extractTemplate`: always persists a not-yet-uploaded FTP job on the
        zone's first storage server; only when the template has a copy on a
        storage host does it register a listener, dispatch, and return the job id.
        `storageServers` answers the zone's storage-server listing, none for null. */
    method ExtractTemplate(template: TemplateRef, url: string, templateHost: Option<TemplateHost>,
                           storageServers: Option<seq<int>>, send: SendOutcome, now: int)
      returns (r: Result<Option<int>, Exception>)
      requires Valid()
      modifies this`store, this`nextId, this`listeners
      ensures Valid()
      ensures storageServers.None? ==>
        && r == Failure(NullPointerException)
        && store == old(store) && nextId == old(nextId) && listeners == old(listeners)
      ensures storageServers.Some? && |storageServers.value| == 0 ==>
        && r == Failure(IndexOutOfBoundsException)
        && store == old(store) && nextId == old(nextId) && listeners == old(listeners)
      ensures storageServers.Some? && |storageServers.value| > 0 ==>
        && old(nextId) !in old(store)
        && store == old(store)[old(nextId) := Record(old(nextId), storageServers.value[0], template.id,
                                                     TemplateType(template), FtpUpload, NotUploaded, now, Some(url),
                                                     None, None)]
        && nextId == old(nextId) + 1
      ensures storageServers.Some? && |storageServers.value| > 0 && templateHost.Some? ==>
        && r == Success(Some(old(nextId)))
        && listeners == old(listeners)[old(nextId) := Listener(storageServers.value[0], old(nextId),
                                                               TemplateType(template), url, send.Unavailable?)]
      ensures storageServers.Some? && |storageServers.value| > 0 && templateHost.None? ==>
        r == Success(None) && listeners == old(listeners)
    {
      var kind := TemplateType(template);
      if storageServers.None? {
        return Failure(NullPointerException);
      }
      if |storageServers.value| == 0 {
        return Failure(IndexOutOfBoundsException);
      }
      var sserver := storageServers.value[0];
      var job := CreateNewUploadEntry(sserver, template.id, NotUploaded, kind, Some(url), FtpUpload, now);
      if templateHost.Some? {
        var listener := Listener(sserver, job.id, kind, url, false);
        listeners := listeners[job.id := listener];
        if send.Unavailable? {
          listeners := listeners[job.id := listener.(disconnected := true)];
        }
        return Success(Some(job.id));
      }
      return Success(None);
    }

    /** `handleUploadEvent`: an uploaded or abandoned job leaves the registry;
        any other event changes nothing. */
    method HandleUploadEvent(uploadId: int, reason: Status)
      modifies this`listeners
      ensures reason == Uploaded || reason == Abandoned ==>
        listeners == old(listeners) - {uploadId} && uploadId !in listeners
      ensures reason != Uploaded && reason != Abandoned ==> listeners == old(listeners)
    {
      if reason == Uploaded || reason == Abandoned {
        if uploadId in listeners {
          listeners := listeners - {uploadId};
        }
      }
    }

    /** `handleUploadSync`: after host `sserverId` reconnects, each of its jobs
        still uploading or copying is forced into upload error; every other job
        is left alone, and an unknown host changes nothing. */
    method HandleUploadSync(sserverId: int, hostExists: bool, now: int)
      requires Valid()
      modifies this`store
      ensures Valid()
      ensures !hostExists ==> store == old(store)
      ensures store.Keys == old(store).Keys
      ensures hostExists ==> forall id :: id in old(store) && InProgressOn(old(store)[id], sserverId) ==>
        store[id] == SyncFailed(old(store)[id], now)
      ensures forall id :: id in old(store) && !(hostExists && InProgressOn(old(store)[id], sserverId)) ==>
        store[id] == old(store)[id]
      ensures hostExists ==> forall id :: id in store ==> !InProgressOn(store[id], sserverId)
      ensures UniqueUrls(old(store)) ==> UniqueUrls(store)
    {
      if !hostExists {
        return;
      }
      var uploadsInProgress := ListByHostAndUploadStatus(store, sserverId, UploadInProgress)
                             + ListByHostAndUploadStatus(store, sserverId, CopyInProgress);
      var todo := uploadsInProgress;
      while todo != {}
        invariant todo <= uploadsInProgress
        invariant store.Keys == old(store).Keys
        invariant forall id :: id in store ==>
          store[id] == if id in uploadsInProgress - todo then SyncFailed(old(store)[id], now) else old(store)[id]
        decreases todo
      {
        HasMember(todo);
        var id :| id in todo;
        var uploadJob := store[id];
        store := store[id := SyncFailed(uploadJob, now)];
        todo := todo - {id};
      }
      assert forall id :: id in old(store) ==> (id in uploadsInProgress <==> InProgressOn(old(store)[id], sserverId));
    }

    /** `cleanupStorage`: walks the created download URLs in table order; each
        one older than the expiration interval is deleted on its storage VM and
        its job removed. A job whose host has no storage VM, or whose deletion
        cannot be dispatched, stays as it is. An expired job whose storage host
        has no row in the hosts table raises `NullPointerException`, which ends
        the sweep: the jobs after it stay as they are. `hostExists` answers the
        host-row lookup, `pickSsvm` the storage-VM lookup made for a job, and
        `deleteSent` the dispatch of the deletion command for a job. */
    method CleanupStorage(now: int, hostExists: int -> bool, pickSsvm: int -> Option<int>, deleteSent: int -> bool)
      returns (r: Outcome<Exception>)
      requires Valid()
      modifies this`store
      ensures Valid()
      ensures store.Keys <= old(store).Keys
      ensures forall id :: id in store ==> store[id] == old(store)[id]
      ensures r == Pass || r == Fail(NullPointerException)
      ensures r.Pass? <==>
        forall id :: id in old(store) ==> !StopsSweep(old(store)[id], now, urlExpirationInterval, hostExists)
      ensures forall id :: id in old(store) ==>
        (id !in store <==>
          && Deletable(id, old(store)[id], now, urlExpirationInterval, hostExists, pickSsvm, deleteSent)
          && forall j :: j in old(store) && j < id ==> !StopsSweep(old(store)[j], now, urlExpirationInterval, hostExists))
      ensures UniqueUrls(old(store)) ==> UniqueUrls(store)
    {
      var limit := urlExpirationInterval;
      var jobs := store;
      var extractJobs := ListByModeAndStatus(store, HttpDownload, DownloadUrlCreated);
      var i := 0;
      while i < nextId
        invariant 0 <= i <= nextId
        invariant SweptBelow(jobs, store, i, now, limit, hostExists, pickSsvm, deleteSent)
      {
        ghost var before := store;
        if i in extractJobs {
          var extractJob := jobs[i];
          if TimeDiff(now, extractJob.lastUpdated) > limit {
            if !hostExists(extractJob.hostId) {
              SweepStopped(jobs, store, i, now, limit, hostExists, pickSsvm, deleteSent);
              RemovalKeepsUniqueUrls(jobs, store);
              return Fail(NullPointerException);
            }
            var ssvm := pickSsvm(i);
            if ssvm.Some? && deleteSent(i) {
              store := store - {i};
            }
          }
        }
        SweepStep(jobs, before, i, now, limit, hostExists, pickSsvm, deleteSent);
        i := i + 1;
      }
      SweepFinished(jobs, store, i, now, limit, hostExists, pickSsvm, deleteSent);
      RemovalKeepsUniqueUrls(jobs, store);
      return Pass;
    }

    /** `createEntityDownloadURL`: reuses the subject's first live download
        URL, or creates a job, asks the storage VM for the symlink and finalises
        the job exactly once, as created with its URL or as failed with the
        error text. With no storage VM it fails before looking at the table.
        `hostExists` answers the lookup of the storage host's row: without it
        the error message, and later the symlink command, dereference null.
        `random` stands for the random UUID of the token. */
    method CreateEntityDownloadUrl(template: TemplateRef, templateHost: TemplateHost, hostExists: bool,
                                   ssvm: Option<Ssvm>, random: string, send: SendOutcome, now: int)
      returns (r: Result<Record, Exception>)
      requires Valid()
      modifies this`store, this`nextId
      ensures Valid()
      ensures UniqueUrls(old(store)) ==> UniqueUrls(store)
      // no storage VM: nothing is looked up or written
      ensures ssvm.None? ==>
        && r == (if hostExists then Failure(CloudRuntimeException(NoSsvmMessage(IntToString(templateHost.hostId))))
                 else Failure(NullPointerException))
        && store == old(store) && nextId == old(nextId)
      // a live URL for the subject is returned as it is
      ensures ssvm.Some? && old(ListByTypeUploadStatus(store, template.id, TemplateType(template), DownloadUrlCreated)) != {} ==>
        && store == old(store) && nextId == old(nextId)
        && r.Success? && r.value.id in old(store) && r.value == old(store)[r.value.id]
      // otherwise a new job is persisted and finalised once
      ensures ssvm.Some? && old(ListByTypeUploadStatus(store, template.id, TemplateType(template), DownloadUrlCreated)) == {} ==>
        && old(nextId) !in old(store) && nextId == old(nextId) + 1
        && store.Keys == old(store).Keys + {old(nextId)}
        && (forall id :: id in old(store) ==> store[id] == old(store)[id])
        && var job := store[old(nextId)];
           && job.id == old(nextId) && job.hostId == templateHost.hostId && job.typeId == template.id
           && job.kind == TemplateType(template) && job.mode == HttpDownload && job.lastUpdated == now
           && job.installPath == Some(templateHost.installPath)
           && (job.status == DownloadUrlCreated || job.status == Error)
           && (r.Success? <==> job.status == DownloadUrlCreated)
           && (r.Success? <==> hostExists && send.Sent? && (!sslCopy || ssvm.value.publicIp.Some?))
           && (r.Success? ==>
                 && r.value == job && job.errorString == None
                 && job.uploadUrl == Some(CopyUrl.GenerateCopyUrl(sslCopy, JavaString(ssvm.value.publicIp),
                                                                  random + "." + template.fileExtension)))
           && (!hostExists ==>
                 r == Failure(NullPointerException) && job.errorString == Some("") && job.uploadUrl == None)
           && (hostExists && send.Unavailable? ==>
                 && r == Failure(CloudRuntimeException(LinkErrorMessage(TemplateType(template), template.id, send.message)))
                 && job.errorString == Some(LinkErrorMessage(TemplateType(template), template.id, send.message))
                 && job.uploadUrl == None)
           && (hostExists && send.Sent? && r.Failure? ==>
                 r == Failure(NullPointerException) && job.errorString == Some("") && job.uploadUrl == None)
      // a returned URL is the subject's first live one, so a repeated call returns it again
      ensures r.Success? ==>
        && r.value.id in ListByTypeUploadStatus(store, template.id, TemplateType(template), DownloadUrlCreated)
        && r.value == store[r.value.id]
        && forall id :: id in ListByTypeUploadStatus(store, template.id, TemplateType(template), DownloadUrlCreated) ==> r.value.id <= id
    {
      var errorString := "";
      var success := false;
      var kind := TemplateType(template);
      if ssvm.None? {
        if !hostExists {
          return Failure(NullPointerException);
        }
        return Failure(CloudRuntimeException(NoSsvmMessage(IntToString(templateHost.hostId))));
      }
      FirstByTypeUploadStatusComplete(store, nextId, template.id, kind, DownloadUrlCreated);
      var existing := FirstByTypeUploadStatus(store, template.id, kind, DownloadUrlCreated, 0, nextId);
      if existing.Some? {
        return Success(store[existing.value]);
      }
      ghost var before := store;
      var job := Record(nextId, templateHost.hostId, template.id, kind, HttpDownload, DownloadUrlNotCreated,
                        now, None, Some(templateHost.installPath), None);
      store := store[job.id := job];
      nextId := nextId + 1;
      // try
      var thrown: Exception := NullPointerException;
      var uuid := random + "." + template.fileExtension;
      if !hostExists {
        thrown := NullPointerException;
      } else {
        match send {
          case Unavailable(message) =>
            errorString := LinkErrorMessage(kind, template.id, message);
            thrown := CloudRuntimeException(errorString);
          case Sent =>
            var ip := ssvm.value.publicIp;
            if sslCopy && ip.None? {
              thrown := NullPointerException;
            } else {
              var extractUrl := CopyUrl.GenerateCopyUrl(sslCopy, JavaString(ip), uuid);
              store := store[job.id := UrlCreated(store[job.id], extractUrl, now)];
              success := true;
              r := Success(store[job.id]);
            }
        }
      }
      // finally
      if !success {
        store := store[job.id := UrlFailed(store[job.id], errorString, now)];
        r := Failure(thrown);
      }
      var listed := ListByTypeUploadStatus(store, template.id, kind, DownloadUrlCreated);
      forall id | id in listed
        ensures id == job.id
      {
        assert id == job.id || id in ListByTypeUploadStatus(before, template.id, kind, DownloadUrlCreated);
      }
      if UniqueUrls(before) {
        forall a, b | a in store && b in store
          && store[a].status == DownloadUrlCreated && store[b].status == DownloadUrlCreated
          && store[a].typeId == store[b].typeId && store[a].kind == store[b].kind
          ensures a == b
        {
          if a == job.id || b == job.id {
            assert a in listed && b in listed;
          } else {
            assert a in before && b in before;
          }
        }
      }
    }

    /** `createVolumeDownloadURL`: for the existing job `uploadId`, marks it
        not created, asks the storage VM for the symlink, and builds the URL on
        the public address of the zone's first running storage VM. Every exit
        finalises the job exactly once, as created with its URL or as failed
        with the error text known at that point. `random` stands for the random
        UUID of the token, whose suffix is the last four characters of `path`.
        `secStorage` answers the lookup of the job's storage host: its name, or
        none when the hosts table has no such row, in which case the error
        message or the symlink command dereferences null. */
    method CreateVolumeDownloadUrl(entityId: int, path: string, kind: Type, dataCenterId: int, uploadId: int,
                                   storageServersFound: bool, secStorage: Option<string>, ssvm: Option<int>,
                                   send: SendOutcome, running: RunningSsvm, random: string, now: int)
      returns (r: Outcome<Exception>)
      requires Valid()
      modifies this`store
      ensures Valid()
      ensures store.Keys == old(store).Keys
      ensures forall id :: id in store && id != uploadId ==> store[id] == old(store)[id]
      ensures r.Pass? <==>
        && storageServersFound && |path| >= 4 && uploadId in old(store)
        && secStorage.Some? && ssvm.Some? && send.Sent? && running.Running? && running.publicIp.Some?
      // the job ends created or failed, never still pending
      ensures uploadId in store ==> store[uploadId].status == DownloadUrlCreated || store[uploadId].status == Error
      ensures uploadId in store && r.Pass? ==>
        store[uploadId] == UrlCreated(old(store)[uploadId],
                                      CopyUrl.GenerateCopyUrl(sslCopy, running.publicIp.value, random + path[|path| - 4..]), now)
      ensures uploadId in store && r.Fail? ==> exists e :: store[uploadId] == UrlFailed(old(store)[uploadId], e, now)
      ensures uploadId !in store ==> store == old(store) && r.Fail?
      // the job becomes a live URL whether or not its subject already has one
      ensures r.Pass? ==>
        var job := old(store)[uploadId];
        && (ListByTypeUploadStatus(old(store), job.typeId, job.kind, DownloadUrlCreated) <= {uploadId} ==>
              (UniqueUrls(old(store)) ==> UniqueUrls(store)))
        && (ListByTypeUploadStatus(old(store), job.typeId, job.kind, DownloadUrlCreated) - {uploadId} != {} ==>
              !UniqueUrls(store))
      ensures r.Fail? ==> (UniqueUrls(old(store)) ==> UniqueUrls(store))
      // the error raised, and the error text written, on each failure path
      ensures !storageServersFound ==>
        && r == Fail(CloudRuntimeException(NoStorageServerMessage(dataCenterId)))
        && (uploadId in store ==> store[uploadId] == UrlFailed(old(store)[uploadId], NoStorageServerMessage(dataCenterId), now))
      ensures storageServersFound && |path| < 4 ==>
        r == Fail(StringIndexOutOfBoundsException)
        && (uploadId in store ==> store[uploadId] == UrlFailed(old(store)[uploadId], "", now))
      ensures storageServersFound && |path| >= 4 && uploadId !in store ==> r == Fail(NullPointerException)
      ensures storageServersFound && |path| >= 4 && uploadId in store && secStorage.None? ==>
        && r == Fail(NullPointerException)
        && store[uploadId] == UrlFailed(old(store)[uploadId], "", now)
      ensures storageServersFound && |path| >= 4 && uploadId in store && secStorage.Some? && ssvm.None? ==>
        && r == Fail(CloudRuntimeException(NoSsvmMessage(secStorage.value)))
        && store[uploadId] == UrlFailed(old(store)[uploadId], NoSsvmMessage(secStorage.value), now)
      ensures storageServersFound && |path| >= 4 && uploadId in store && secStorage.Some? && ssvm.Some?
              && send.Unavailable? ==>
        && r == Fail(CloudRuntimeException(LinkErrorMessage(kind, entityId, send.message)))
        && store[uploadId] == UrlFailed(old(store)[uploadId], LinkErrorMessage(kind, entityId, send.message), now)
      ensures storageServersFound && |path| >= 4 && uploadId in store && secStorage.Some? && ssvm.Some? && send.Sent?
              && running.NoneRunning? ==>
        && r == Fail(CloudRuntimeException(NoRunningSsvmMessage(dataCenterId)))
        && store[uploadId] == UrlFailed(old(store)[uploadId], NoRunningSsvmMessage(dataCenterId), now)
      ensures storageServersFound && |path| >= 4 && uploadId in store && secStorage.Some? && ssvm.Some? && send.Sent?
              && running.Running? && running.publicIp.None? ==>
        && r == Fail(CloudRuntimeException(NullPublicIpMessage))
        && store[uploadId] == UrlFailed(old(store)[uploadId], NullPublicIpMessage, now)
    {
      var errorString := "";
      var success := false;
      var thrown: Exception := NullPointerException;
      // try
      if !storageServersFound {
        errorString := NoStorageServerMessage(dataCenterId);
        thrown := CloudRuntimeException(errorString);
      } else {
        if uploadId in store {
          store := store[uploadId := store[uploadId].(status := DownloadUrlNotCreated, lastUpdated := now)];
        }
        if |path| < 4 {
          thrown := StringIndexOutOfBoundsException;
        } else if uploadId !in store {
          thrown := NullPointerException;
        } else if ssvm.None? {
          if secStorage.None? {
            thrown := NullPointerException;
          } else {
            errorString := NoSsvmMessage(secStorage.value);
            thrown := CloudRuntimeException(errorString);
          }
        } else if secStorage.None? {
          thrown := NullPointerException;
        } else if send.Unavailable? {
          errorString := LinkErrorMessage(kind, entityId, send.message);
          thrown := CloudRuntimeException(errorString);
        } else if running.NoneRunning? {
          errorString := NoRunningSsvmMessage(dataCenterId);
          thrown := CloudRuntimeException(errorString);
        } else if running.publicIp.None? {
          errorString := NullPublicIpMessage;
          thrown := CloudRuntimeException(errorString);
        } else {
          var uuid := random + path[|path| - 4..];
          var extractUrl := CopyUrl.GenerateCopyUrl(sslCopy, running.publicIp.value, uuid);
          store := store[uploadId := UrlCreated(store[uploadId], extractUrl, now)];
          success := true;
        }
      }
      // finally
      if !success {
        if uploadId in store {
          store := store[uploadId := UrlFailed(store[uploadId], errorString, now)];
          assert store[uploadId] == UrlFailed(old(store)[uploadId], errorString, now);
        }
        r := Fail(thrown);
      } else {
        r := Pass;
      }
      if uploadId in store {
        assert store == old(store)[uploadId := store[uploadId]];
        ghost var job := old(store)[uploadId];
        if r.Pass? && ListByTypeUploadStatus(old(store), job.typeId, job.kind, DownloadUrlCreated) - {uploadId} != {} {
          SecondLiveUrl(old(store), uploadId, store[uploadId]);
        } else if UniqueUrls(old(store)) {
          WriteKeepsUniqueUrls(old(store), uploadId, store[uploadId]);
        }
      }
    }
  }
}
