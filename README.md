# Upload monitor: job table and listener registry

This project models the job-table logic of CloudStack's `UploadMonitorImpl`
(`server/src/com/cloud/storage/upload/UploadMonitorImpl.java`) in Dafny. The monitor
tracks two kinds of jobs over a table of `UploadVO` rows:

- **uploads** push a template, ISO or volume from a secondary-storage host to an external URL (FTP mode);
- **extraction sessions** publish a download URL for an image on secondary storage (HTTP-download mode).

The model covers these parts:

- the upload-in-progress query;
- job creation;
- starting volume and template uploads, which register listeners;
- the terminal-event hook that removes listeners;
- the reconnect sweep;
- the two download-URL paths;
- the URL builder;
- the expiry sweep.

Files:

- `wrappers.dfy`: `Option` (Java `null`), `Result` and `Outcome` (a call that returns or raises).
- `upload_types.dfy`: the status, type and mode enums, the job `Record`, the `Listener`
  entry, the answers of collaborators (`Ssvm`, `RunningSsvm`, `SendOutcome`), the Java
  exceptions the operations raise, and `Long.toString`.
- `copy_url.dfy`: `generateCopyUrl` and a parse that takes a generated URL apart again.
- `upload_store.dfy`: the job table (`UploadDao`) as `map<int, Record>` and the scans the monitor runs on it.
- `upload_monitor.dfy`: the class `UploadMonitor`. It has the fields `store`, `nextId`
  (the fresh-id counter) and `listeners` (the registry), plus the two configuration
  constants, and one method per operation. The expiry time computation and the sweep
  predicates are in the same file.

Modelling choices:

- The clock is an integer count of milliseconds, passed to each operation as `now`.
  Every `new Date()` in one call reads that single value.
- Collaborator answers are inputs of the operation that asks for them:
  - agent dispatch is a `SendOutcome`;
  - `pickSsvmHost` is an `Option`;
  - the running-SSVM lookup is a `RunningSsvm`;
  - the host-row lookups (`_serverDao.findById`, `ApiDBUtils.findHostById`) are
    `hostExists` (a boolean, or in the expiry sweep a function of the host id) or,
    where the host's name is used, the `Option` `secStorage`;
  - in the expiry sweep, the SSVM lookup and the deletion dispatch are functions of the job id, since the source asks once per job;
  - the zone's storage-server listing is an `Option` in `extractTemplate` and a boolean `storageServersFound` in `createVolumeDownloadURL`, where only its null check matters.
- The random UUID is a `random` string input.
- Java's `null` inside a string concatenation is the text `"null"` (`JavaString`).
- A scan's "first" element is the matching row with the smallest id. The
  model assumes that the table lists rows in id order.
- The listener registry is keyed by job id. `UploadVO.equals`/`hashCode` are not part of
  this model. The source keys the map by `UploadVO` objects, and `handleUploadEvent` looks
  entries up with a new `UploadVO(uploadId)`. The model assumes that this finds the entry
  registered for the same id.
- Exceptions are values: `Result.Failure` and `Outcome.Fail` carry a `CloudRuntimeException`
  with its message, or a `NullPointerException`, `IndexOutOfBoundsException` or
  `StringIndexOutOfBoundsException`.

The model follows the code in these places:

- **Copy in progress.** A `COPY_IN_PROGRESS` job makes a subject busy only for volumes.
  For templates and ISOs, only `UPLOAD_IN_PROGRESS` counts.
- **`extractTemplate` without a template copy.** It still persists the new
  `NOT_UPLOADED` FTP job. It then returns no id and registers no listener.
- **`createEntityDownloadURL` order.** The call fails for lack of an SSVM before it looks
  for an existing URL. A live URL is therefore returned only when an SSVM is found.
- **Null public IP in `createEntityDownloadURL`.** Nothing checks for it:
  - without secure copy, the URL built is `http://null/userdata/...`;
  - with secure copy, the call raises a `NullPointerException`, and the job is
    finalised as `ERROR` with the empty error text.
- **Short path in `createVolumeDownloadURL`.** A `path` shorter than four characters
  raises `StringIndexOutOfBoundsException` after the job is marked not created. The job
  then ends as `ERROR` with the empty error text.
- **Missing job id in `createVolumeDownloadURL`.** The writes to a missing id change
  nothing, and the upload lookup raises `NullPointerException`.
- **Storage-server check.** `createVolumeDownloadURL` only checks that the storage-server list is not null.
- **Missing host row.** The source reads the host row without a null check in three places:
  - `createEntityDownloadURL` raises `NullPointerException` when building the no-SSVM message.
    With an SSVM, it raises it after persisting the job, which then ends as `ERROR` with the empty error text;
  - `createVolumeDownloadURL` raises it at the same two points, and the job ends as `ERROR` with the empty error text;
  - `cleanupStorage` raises it at the first expired job whose host is missing. That ends the sweep,
    the garbage collector swallows the exception, and every later job in the listing stays.
    The sweep therefore walks the listing in id order and returns the exception.
- **At most one live URL per subject.** The entity path preserves this, and so do the two sweeps.
  `createVolumeDownloadURL` and `createNewUploadEntry` do not check for an existing live URL.
  Their contracts say they keep the invariant when the subject has no other live URL and break it when it has one.
  `VolumeUrlReissueExample` exhibits the second case, so the caller must check first.
- **Expiry uses the snapshot.** The expiry sweep decides on the rows it listed at its start.
  Integer seconds come from truncating division, which for a `lastUpdated` in the future
  rounds toward zero.

## Model

| member | source | states |
|---|---|---|
| `CopyUrl.ReplaceDots` | server/src/com/cloud/storage/upload/UploadMonitorImpl.java:330 | the result has the input's length, and each character is the input's with `.` replaced by `-` |
| `CopyUrl.GenerateCopyUrl` | server/src/com/cloud/storage/upload/UploadMonitorImpl.java:326-335 | the URL starts with `https://` iff secure copy is on; without it, `http://` is followed by the address itself; with it, the address part holds no dot; the URL ends in `/userdata/` and the token; its length is fixed by the address, the token and the mode |
| `CopyUrl.ParseGenerateCopyUrl` | server/src/com/cloud/storage/upload/UploadMonitorImpl.java:326-335 | for an address without `/`, a generated URL parses back into its scheme, its hostname and its token; the hostname is the address, or with secure copy the address with dots turned into dashes followed by `.realhostip.com` |
| `CopyUrl.GenerateCopyUrlTokenInjective` | server/src/com/cloud/storage/upload/UploadMonitorImpl.java:334 | two URLs built on the same address and mode are equal only if their tokens are equal |
| `CopyUrl.SecureHostnameExample` | server/src/com/cloud/storage/upload/UploadMonitorImpl.java:330-331 | address `10.0.0.5` becomes hostname `10-0-0-5.realhostip.com` |
| `CopyUrl.PlainCopyUrlExample` | server/src/com/cloud/storage/upload/UploadMonitorImpl.java:326-335 | without secure copy, address `10.0.0.5` and token `abc` give `http://10.0.0.5/userdata/abc` |
| `CopyUrl.SecureCopyUrlExample` | server/src/com/cloud/storage/upload/UploadMonitorImpl.java:326-335 | with secure copy, the same inputs give `https://10-0-0-5.realhostip.com/userdata/abc` |
| `CopyUrl.CopyHostname` | server/src/com/cloud/storage/upload/UploadMonitorImpl.java:327-332 | without secure copy the hostname is the address; with it, the address with every dot turned into a dash and no other character changed, followed by `.realhostip.com` |
| `UploadTypes.TemplateType` | server/src/com/cloud/storage/upload/UploadMonitorImpl.java:206 | an ISO image is of kind `ISO`, every other template of kind `TEMPLATE`, never `VOLUME` |
| `UploadStore.FirstByTypeUploadStatus` | server/src/com/cloud/storage/upload/UploadMonitorImpl.java:215-217 | a found id lies in the range and is listed for the subject and status; no smaller id in the range is listed; finding nothing means no id in the range is listed |
| `UploadStore.FirstByTypeUploadStatusComplete` | server/src/com/cloud/storage/upload/UploadMonitorImpl.java:215-217 | over a well-keyed table, the scan finds nothing iff the listing is empty; otherwise it finds an id no larger than any listed one |
| `UploadMonitorImpl.TimeDiff` | server/src/com/cloud/storage/upload/UploadMonitorImpl.java:450-456 | the whole seconds between two millisecond instants, truncated toward zero: within one second below the elapsed time when it is non-negative, within one second above it otherwise |
| `UploadMonitorImpl.ExpiryThreshold` | server/src/com/cloud/storage/upload/UploadMonitorImpl.java:464 | for a non-negative threshold, the strict test on whole seconds holds iff at least threshold + 1 seconds have elapsed |
| `UploadMonitorImpl.ExpiryExample` | server/src/com/cloud/storage/upload/UploadMonitorImpl.java:455-464 | with a 100-second threshold, a URL 150 s old has expired and one 50 s old has not |
| `UploadMonitorImpl.ExpiredUrlMeaning` | server/src/com/cloud/storage/upload/UploadMonitorImpl.java:461-464 | for a non-negative limit, the sweep selects exactly the HTTP-download jobs in `DOWNLOAD_URL_CREATED` last updated at least limit + 1 seconds ago |
| `UploadMonitorImpl.SyncFailed` | server/src/com/cloud/storage/upload/UploadMonitorImpl.java:411-413 | the reconnect sweep's write leaves the job in `UPLOAD_ERROR`, no longer in progress, with "Could not complete the upload." and the current time; no other field changes |
| `UploadMonitorImpl.UrlCreated` | server/src/com/cloud/storage/upload/UploadMonitorImpl.java:241-244 | the success write leaves the job in `DOWNLOAD_URL_CREATED` with the URL and the current time; no other field changes |
| `UploadMonitorImpl.UrlFailed` | server/src/com/cloud/storage/upload/UploadMonitorImpl.java:249-253 | the `finally` write leaves the job in `ERROR` with the error text and the current time; no other field changes |
| `UploadStore.WriteKeepsUniqueUrls` | server/src/com/cloud/storage/upload/UploadMonitorImpl.java:214-218 | writing a job keeps at most one live URL per subject, unless the job becomes live while its subject has a live URL under another id |
| `UploadStore.SecondLiveUrl` | server/src/com/cloud/storage/upload/UploadMonitorImpl.java:305-309 | making a job live while its subject has a live URL under another id leaves two live URLs |
| `UploadMonitorImpl.VolumeUrlReissueExample` | server/src/com/cloud/storage/upload/UploadMonitorImpl.java:305-309 | a volume with one live URL job and one idle job has one live URL; after the idle job receives a URL it has two |
| `UploadMonitorImpl.UploadMonitor.constructor` | server/src/com/cloud/storage/upload/UploadMonitorImpl.java:343-366 | a configured monitor starts with an empty, well-keyed table and an empty registry, and keeps the secure-copy flag and expiration interval it was given |
| `UploadMonitorImpl.UploadMonitor.Defaults` | server/src/com/cloud/storage/upload/UploadMonitorImpl.java:348-360 | with no settings, secure copy is off and the expiration interval is 14400 seconds; the table and registry are empty |
| `UploadMonitorImpl.UploadMonitor.IsTypeUploadInProgress` | server/src/com/cloud/storage/upload/UploadMonitorImpl.java:124-135 | true iff some job of the subject is `UPLOAD_IN_PROGRESS`, or the subject is a volume and some job of it is `COPY_IN_PROGRESS` |
| `UploadMonitorImpl.UploadMonitor.CreateNewUploadEntry` | server/src/com/cloud/storage/upload/UploadMonitorImpl.java:138-147 | persists exactly one new row with the given fields under a fresh id; the rest of the table is unchanged and stays well keyed; at most one live URL per subject is kept unless the new row is a second live URL of its subject, which breaks it |
| `UploadMonitorImpl.UploadMonitor.ExtractVolume` | server/src/com/cloud/storage/upload/UploadMonitorImpl.java:150-167 | the job becomes `NOT_UPLOADED` if it exists, and its listener is registered whatever the dispatch does; the listener is marked disconnected iff the dispatch failed |
| `UploadMonitorImpl.UploadMonitor.ExtractTemplate` | server/src/com/cloud/storage/upload/UploadMonitorImpl.java:170-198 | a null server list raises `NullPointerException` and an empty one `IndexOutOfBoundsException`, both changing nothing; otherwise it always persists a new `NOT_UPLOADED` FTP job on the first storage server; it returns the job id and registers a listener iff a template copy is given, and otherwise returns none and leaves the registry alone |
| `UploadMonitorImpl.UploadMonitor.HandleUploadEvent` | server/src/com/cloud/storage/upload/UploadMonitorImpl.java:385-395 | an `UPLOADED` or `ABANDONED` event removes the job's registry entry; any other event leaves the registry unchanged |
| `UploadMonitorImpl.UploadMonitor.HandleUploadSync` | server/src/com/cloud/storage/upload/UploadMonitorImpl.java:398-420 | an unknown host changes nothing; for a known host, each of its uploading or copying jobs becomes `UPLOAD_ERROR` with "Could not complete the upload." and the current time, and no job of that host is left in progress; every other job is unchanged; at most one live URL per subject is preserved |
| `UploadMonitorImpl.UploadMonitor.CleanupStorage` | server/src/com/cloud/storage/upload/UploadMonitorImpl.java:458-487 | the sweep walks the listing in id order; it returns normally iff no expired job has a missing host row, and otherwise raises `NullPointerException`; a job is removed iff it is an HTTP-download job in `DOWNLOAD_URL_CREATED` older than the expiration interval (strict, whole seconds), its host row exists and has an SSVM, the deletion was dispatched, and no earlier job stopped the sweep; every remaining job is unchanged; at most one live URL per subject is preserved |
| `UploadMonitorImpl.UploadMonitor.CreateEntityDownloadUrl` | server/src/com/cloud/storage/upload/UploadMonitorImpl.java:201-257 | with no SSVM it raises and changes nothing: `CloudRuntimeException` naming the host, or `NullPointerException` when the host row is missing; otherwise it returns the subject's first live URL job, unchanged, if one exists; otherwise it persists one new job and finalises it exactly once: `DOWNLOAD_URL_CREATED` with the generated URL on success, `ERROR` with the error text of the failure otherwise (the empty text for a missing host row or a null address under secure copy), never both and never still pending; a returned job is the subject's first live URL job, so a repeated call returns it again; at most one live URL per subject is preserved |
| `UploadMonitorImpl.UploadMonitor.CreateVolumeDownloadUrl` | server/src/com/cloud/storage/upload/UploadMonitorImpl.java:260-324 | only the given job changes; the call succeeds iff storage servers are found, the path has a four-character suffix, the job exists, its host row exists, an SSVM is found, the dispatch succeeds and a running SSVM with a public address exists; the job then ends `DOWNLOAD_URL_CREATED` with the URL built on that address; on every other path it ends `ERROR` with the error text current at that point, and the exception raised is the one for that path (`NullPointerException` with the empty text for a missing host row); a failure keeps at most one live URL per subject; a success keeps it iff the subject had no other live URL |

## Left out

- Agent dispatch, `AgentUnavailableException`, host and SSVM lookups (`ApiDBUtils`, `HostDao`, `_resourceMgr`, `_ssvmMgr`, `_secStorageVmDao`): these are foreign code, so each answer is an input of the operation, including the missing host row. What `pickSsvmHost` does with a null host is the `ssvm` input.
- `UploadListener` internals (`setDisconnected`, `scheduleStatusCheck`, progress polling) and `java.util.Timer`: that class is not part of this model. The registry entry only records that the listener was marked disconnected.
- `start()`, `StorageGarbageCollector.run`, `GlobalLock` and the `ScheduledExecutorService`: these exist for scheduling and cluster-wide locking. The model is sequential. The calls to `start()` inside `extractVolume` and `extractTemplate` are therefore not modelled.
- `configure()` reads a configuration store. The constructor takes the secure-copy flag and the expiration interval, and `Defaults` builds the monitor configured with no settings. The worker count (default 1) and the cleanup interval (default 7200) only feed the scheduler, so they are not modelled. The warning about the certificate setting is logging.
- `cancelAllUploads` (an empty TODO), `getName` and `stop`: they have no behaviour.
- Logging.
- `UUID.randomUUID`, `Date` and `Calendar`: they become the `random` input and the integer clock `now`. Java `long` overflow of the clock is not modelled, because integers are unbounded.
- `UploadVO`'s own fields beyond the ten listed, and its constructors: `UploadVO` is not part of this model. The created date, the progress counters and the job id fields are left out.
- `ExtractVolume`: does not model the upload command's payload (volume id, size, install path) or the listener's account, event and async-job ids, because the listener class is not part of this model. The same holds for `ExtractTemplate`.
- `HandleUploadSync`: uses one `now` for every job it updates, where the source reads the clock once per job.
- `CleanupStorage`: uses one `now` to age every job, where the source reads the clock once per job.
- Concurrency: the reconnect sweep, terminal events and the expiry sweep run in parallel in the source. The model runs them one at a time, so it does not capture the race between reconnect sweep and terminal notification.
