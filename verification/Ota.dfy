// One over-the-air updater.  Everything that comes from outside (HTTP, the
// release server, exit codes, file system errors) is a field of an environment
// record, so a run is a function of the updater's state and that record.
module Ota {
  import opened UpdateFiles
  import opened Wrappers

  // ---------------------------------------------------------------- environment

  // One read of the response body and what the write of it did.
  datatype Chunk = Chunk(data: Bytes, written: nat, writeOk: bool)

  datatype DownloadEnv = DownloadEnv(removeOk: bool, removeUnverifiedOk: bool, createOk: bool, requestOk: bool,
                                     responseOk: bool, status: int, contentLength: int,
                                     chunks: seq<Chunk>, eof: bool, syncOk: bool)

  datatype VerifyEnv = VerifyEnv(openOk: bool, statOk: bool, readOk: bool, renameOk: bool, chmodOk: bool)

  datatype ComponentEnv = ComponentEnv(localVersion: string, parseOk: bool, newer: bool,
                                       download: DownloadEnv, verify: VerifyEnv)

  datatype Release = Release(version: string, url: string, hash: string)

  datatype Env = Env(localOk: bool, fetchOk: bool, appRelease: Release, sysRelease: Release, app: ComponentEnv,
                     sys: ComponentEnv, toolStarts: bool, toolSucceeds: bool, resetOk: bool, rebootOk: bool)

  datatype Params = Params(components: map<string, string>, resetConfig: bool)

  datatype Status = Status(pending: bool, available: bool, customVersion: bool,
                           version: string, localVersion: string, url: string, hash: string)

  datatype Outcome =
    | Locked | AlreadyUpdating | NoComponents | CheckFailed | UpToDate
    | AppFailed | SystemFailed | ResetFailed | RebootFailed | Rebooting | Finished

  // The outcomes that come with an error message.
  predicate Failure(r: Outcome) {
    r.NoComponents? || r.CheckFailed? || r.AppFailed? || r.SystemFailed? || r.ResetFailed? || r.RebootFailed?
  }

  const NO_STATUS: Status := Status(false, false, false, "", "", "", "")
  const BUFFER_SIZE: nat := 32 * 1024
  const HTTP_OK: int := 200

  function Key(c: Component): string { if c.App? then "app" else "system" }

  function DefaultComponents(): map<string, string> { map["app" := "", "system" := ""] }

  function Requested(p: Params): map<string, string> {
    if |p.components| == 0 then DefaultComponents() else p.components
  }

  function Of(env: Env, c: Component): ComponentEnv { if c.App? then env.app else env.sys }

  function ReleaseOf(env: Env, c: Component): Release { if c.App? then env.appRelease else env.sysRelease }

  // What the release data makes of a component's status; None when a version
  // cannot be parsed.
  function Checked(st: Status, c: Component, env: Env, requested: map<string, string>): Option<Status>
  {
    var r, e, key := ReleaseOf(env, c), Of(env, c), Key(c);
    if !e.parseOk then None
    else
      var s := st.(url := r.url, hash := r.hash, version := r.version, localVersion := e.localVersion,
                   available := e.newer);
      if key in requested && requested[key] != "" then
        var differs := r.version != e.localVersion;
        Some(s.(available := differs, customVersion := differs || s.customVersion))
      else if key !in requested then Some(s.(available := false))
      else Some(s)
  }

  predicate Holds(fs: Files, p: Path, content: Bytes) {
    p in fs && fs[p] == content
  }

  function Written(c: Chunk): nat { if c.written < |c.data| then c.written else |c.data| }

  // What the first k reads delivered.
  function Body(chunks: seq<Chunk>, k: nat): Bytes
    requires k <= |chunks|
  {
    if k == 0 then [] else Body(chunks, k - 1) + chunks[k - 1].data
  }

  predicate WrittenFully(c: Chunk) {
    c.data == [] || (c.written >= |c.data| && c.writeOk)
  }

  predicate WrittenUpTo(chunks: seq<Chunk>, k: nat)
    requires k <= |chunks|
  {
    forall i :: 0 <= i < k ==> WrittenFully(chunks[i])
  }

  predicate FullyWritten(chunks: seq<Chunk>) { WrittenUpTo(chunks, |chunks|) }

  // A download gets through when nothing on its way fails.
  predicate DownloadSucceeds(fs: Files, c: Component, e: DownloadEnv) {
    && (Final(c) in fs ==> e.removeOk) && (Unverified(c) in fs ==> e.removeUnverifiedOk) && e.createOk
    && e.requestOk && e.responseOk && e.status == HTTP_OK && e.contentLength > 0
    && FullyWritten(e.chunks) && e.eof && e.syncOk
  }

  predicate VerifySucceeds(content: Bytes, hash: string, e: VerifyEnv, sha: Bytes -> string) {
    e.openOk && e.statOk && e.readOk && sha(content) == hash && e.renameOk && e.chmodOk
  }

  // One component's update, without the tool that a system update runs at the end.
  predicate FetchSucceeds(fs: Files, c: Component, hash: string, e: ComponentEnv, sha: Bytes -> string) {
    DownloadSucceeds(fs, c, e.download)
    && VerifySucceeds(Body(e.download.chunks, |e.download.chunks|), hash, e.verify, sha)
  }

  // A fetched file is a complete 200 response, written completely, with this hash.
  lemma OnlyCompleteDownloads(fs: Files, c: Component, hash: string, e: ComponentEnv, sha: Bytes -> string)
    requires FetchSucceeds(fs, c, hash, e, sha)
    ensures var d := e.download;
            && d.requestOk && d.responseOk && d.status == 200 && d.contentLength > 0 && d.eof && d.createOk && d.syncOk
            && (forall i :: 0 <= i < |d.chunks| && d.chunks[i].data != [] ==>
                              d.chunks[i].writeOk && d.chunks[i].written >= |d.chunks[i].data|)
            && sha(Body(d.chunks, |d.chunks|)) == hash
  {}

  // What goes wrong with the pending components, if anything.
  function Fault(fs: Files, env: Env, appPending: bool, sysPending: bool, sha: Bytes -> string): Option<Outcome> {
    if appPending && !FetchSucceeds(fs, App, env.appRelease.hash, env.app, sha) then Some(AppFailed)
    else if sysPending
         && !(FetchSucceeds(fs, System, env.sysRelease.hash, env.sys, sha) && env.toolStarts && env.toolSucceeds)
    then Some(SystemFailed)
    else None
  }

  // How a run ends once it is known what is pending.
  function InstallOutcome(fs: Files, params: Params, env: Env, appPending: bool, sysPending: bool,
                          sha: Bytes -> string): Outcome {
    var fault := Fault(fs, env, appPending, sysPending, sha);
    if !appPending && !sysPending then UpToDate
    else if fault.Some? then fault.value
    else if params.resetConfig && !env.resetOk then ResetFailed
    else if !env.rebootOk then RebootFailed
    else Rebooting
  }

  // A component is pending in a run when an earlier run left it pending or this
  // run asked for it and found an update.
  function PendingNow(st: Status, c: Component, env: Env, requested: map<string, string>): bool {
    var checked := Checked(st, c, env, requested);
    checked.Some? && (checked.value.pending || (Key(c) in requested && checked.value.available))
  }

  // This run asks for the component, and for another version than the local one
  // or, without naming a version, when there is a newer one.
  predicate FoundNow(c: Component, env: Env, requested: map<string, string>) {
    Key(c) in requested
    && if requested[Key(c)] != "" then ReleaseOf(env, c).version != Of(env, c).localVersion else Of(env, c).newer
  }

  // A run installs more than it found available exactly when an earlier run left
  // something pending.
  lemma PendingExactly(st: Status, c: Component, env: Env, requested: map<string, string>)
    requires Of(env, c).parseOk
    ensures PendingNow(st, c, env, requested) <==> st.pending || FoundNow(c, env, requested)
  {}

  // What a run of doUpdate can return.
  predicate PossibleEnd(r: Outcome) { !r.Locked? && !r.Finished? }

  // The updating flag after such a run.
  predicate StillUpdating(r: Outcome) { r.AlreadyUpdating? || r.Rebooting? }

  // The run got past the status check.
  predicate GotChecked(r: Outcome) {
    !r.Locked? && !r.AlreadyUpdating? && !r.NoComponents? && !r.CheckFailed?
  }

  // A component's status after the check, marked pending or not.
  function Marked(st: Status, c: Component, env: Env, requested: map<string, string>): Status {
    var checked := Checked(st, c, env, requested);
    if checked.None? then st else checked.value.(pending := PendingNow(st, c, env, requested))
  }

  function StatusOf(statuses: map<Component, Status>, c: Component): Status {
    if c in statuses then statuses[c] else NO_STATUS
  }

  function MarkedAll(statuses: map<Component, Status>, requested: map<string, string>, env: Env)
    : map<Component, Status>
  {
    statuses[App := Marked(StatusOf(statuses, App), App, env, requested)]
            [System := Marked(StatusOf(statuses, System), System, env, requested)]
  }

  // One finished call that had the mutex.
  datatype Call = Call(params: Params, env: Env, outcome: Outcome)

  ghost predicate Rebooted(calls: seq<Call>) {
    exists i :: 0 <= i < |calls| && calls[i].outcome.Rebooting?
  }

  ghost predicate Failed(calls: seq<Call>) {
    exists i :: 0 <= i < |calls| && Failure(calls[i].outcome)
  }

  predicate FoundIn(call: Call, c: Component) {
    GotChecked(call.outcome) && FoundNow(c, call.env, Requested(call.params))
  }

  // Some call checked the releases and found this component to install.
  ghost predicate Found(calls: seq<Call>, c: Component) {
    exists i :: 0 <= i < |calls| && FoundIn(calls[i], c)
  }

  // After an accepted reboot every call finds the update in progress.
  ghost predicate NothingAfterReboot(calls: seq<Call>) {
    forall i, j :: 0 <= i < j < |calls| && calls[i].outcome.Rebooting? ==> calls[j].outcome.AlreadyUpdating?
  }

  // What the calls so far have left behind: an update is in progress exactly when
  // some call was granted a reboot, and a component is pending exactly when some
  // call found it.
  ghost predicate Results(calls: seq<Call>, updating: bool, failed: bool, statuses: map<Component, Status>) {
    && NothingAfterReboot(calls) && (updating <==> Rebooted(calls)) && (failed <==> Failed(calls))
    && forall c: Component :: StatusOf(statuses, c).pending <==> Found(calls, c)
  }

  // What one more call changes.
  ghost predicate Effect(call: Call, statuses: map<Component, Status>, statuses': map<Component, Status>) {
    forall c: Component :: StatusOf(statuses', c).pending <==> StatusOf(statuses, c).pending || FoundIn(call, c)
  }

  lemma OneMoreCall(calls: seq<Call>, call: Call, updating: bool, failed: bool, statuses: map<Component, Status>,
                    statuses': map<Component, Status>)
    requires Results(calls, updating, failed, statuses) && Effect(call, statuses, statuses')
    requires updating ==> call.outcome.AlreadyUpdating?
    ensures Results(calls + [call], updating || call.outcome.Rebooting?, failed || Failure(call.outcome), statuses')
  {
    var more := calls + [call];
    assert forall i :: 0 <= i < |calls| ==> more[i] == calls[i];
    assert more[|calls|] == call;
    forall c: Component ensures Found(more, c) <==> Found(calls, c) || FoundIn(call, c) {
      if i :| 0 <= i < |calls| && FoundIn(calls[i], c) { assert FoundIn(more[i], c); }
    }
    if i :| 0 <= i < |calls| && calls[i].outcome.Rebooting? { assert more[i].outcome.Rebooting?; }
    if i :| 0 <= i < |calls| && Failure(calls[i].outcome) { assert Failure(more[i].outcome); }
  }

  lemma MarkedEffect(call: Call, statuses: map<Component, Status>)
    requires GotChecked(call.outcome) && call.env.app.parseOk && call.env.sys.parseOk
    ensures Effect(call, statuses, MarkedAll(statuses, Requested(call.params), call.env))
  {
    forall c: Component
      ensures StatusOf(MarkedAll(statuses, Requested(call.params), call.env), c).pending
         <==> StatusOf(statuses, c).pending || FoundIn(call, c)
    {
      PendingExactly(StatusOf(statuses, c), c, call.env, Requested(call.params));
    }
  }

  // The call asks for the component and has an update for it: without any components
  // both are meant; a named version is wanted when the release differs from the
  // local one, and otherwise only a newer release is.
  predicate Wants(params: Params, env: Env, c: Component) {
    match c
    case App =>
      if |params.components| == 0 then env.app.newer
      else "app" in params.components
           && if params.components["app"] == "" then env.app.newer
              else env.appRelease.version != env.app.localVersion
    case System =>
      if |params.components| == 0 then env.sys.newer
      else "system" in params.components
           && if params.components["system"] == "" then env.sys.newer
              else env.sysRelease.version != env.sys.localVersion
  }

  lemma WantsExactly(call: Call, c: Component)
    ensures FoundIn(call, c) <==> GotChecked(call.outcome) && Wants(call.params, call.env, c)
  {}

  // What a successful check makes of a component's status.
  lemma CheckedStatus(statuses: map<Component, Status>, params: Params, env: Env)
    requires env.app.parseOk && env.sys.parseOk
    ensures var after := MarkedAll(statuses, Requested(params), env);
            && App in after && System in after
            && after[App].version == env.appRelease.version && after[System].version == env.sysRelease.version
            && after[App].url == env.appRelease.url && after[System].url == env.sysRelease.url
            && after[App].hash == env.appRelease.hash && after[System].hash == env.sysRelease.hash
            && after[App].localVersion == env.app.localVersion && after[System].localVersion == env.sys.localVersion
            && (after[App].available <==> Wants(params, env, App))
            && (after[System].available <==> Wants(params, env, System))
            && (after[App].customVersion <==>
                  StatusOf(statuses, App).customVersion
                  || ("app" in params.components && params.components["app"] != "" && Wants(params, env, App)))
            && (after[System].customVersion <==>
                  StatusOf(statuses, System).customVersion
                  || ("system" in params.components && params.components["system"] != "" && Wants(params, env, System)))
  {}

  // How a run ends that is asked for at least one component.
  function CheckedOutcome(app: Status, sys: Status, fs: Files, params: Params, requested: map<string, string>, env: Env,
                          sha: Bytes -> string): Outcome {
    if !(env.localOk && env.fetchOk && env.app.parseOk && env.sys.parseOk) then CheckFailed
    else
      var appPending, sysPending := PendingNow(app, App, env, requested), PendingNow(sys, System, env, requested);
      InstallOutcome(fs, params, env, appPending, sysPending, sha)
  }

  // ------------------------------------------------------------------ the updater

  class State {
    const sha: Bytes -> string
    ghost const initial: Files
    var mu: bool
    var updating: bool
    var rebootNeeded: bool
    var failed: bool
    var statuses: map<Component, Status>
    var files: Files
    ghost var log: seq<Moment>
    ghost var calls: seq<Call>

    // The files are what the logged operations made of the initial ones, and
    // every logged operation was a safe one.
    ghost predicate FilesOk()
      reads `files, `log
    {
      Safe(initial, log, sha) && files == FilesAt(initial, log, |log|)
    }

    // Between calls.
    ghost predicate Valid()
      reads `files, `log, `calls, `updating, `failed, `statuses
    {
      FilesOk() && Results(calls, updating, failed, statuses)
    }

    constructor (sha: Bytes -> string, files: Files)
      ensures Valid() && this.sha == sha && this.files == initial == files && log == [] && calls == []
      ensures !mu && !updating && !rebootNeeded && !failed && statuses == map[App := NO_STATUS, System := NO_STATUS]
    {
      this.sha := sha;
      this.initial := files;
      this.files := files;
      mu, updating, rebootNeeded, failed := false, false, false, false;
      statuses := map[App := NO_STATUS, System := NO_STATUS];
      log := [];
      calls := [];
    }

    method Do(op: Op)
      requires FilesOk() && SafeOp(files, op, sha)
      modifies `files, `log
      ensures FilesOk() && files == Apply(old(files), op) && old(log) <= log
      ensures forall c :: Concerns(op, c) ==> Others(files, c) == old(Others(files, c))
    {
      LogOne(initial, log, op, sha);
      forall c | Concerns(op, c) ensures Others(Apply(files, op), c) == Others(files, c) { OthersKept(files, op, c); }
      files := Apply(files, op);
      log := log + [Moment(op, files)];
    }

    // Remove what earlier downloads left and create the unverified file.
    method StartFile(c: Component, env: DownloadEnv) returns (ok: bool)
      requires FilesOk()
      modifies `files, `log
      ensures FilesOk() && old(log) <= log && Others(files, c) == old(Others(files, c))
      ensures ok <==> (Final(c) in old(files) ==> env.removeOk)
                      && (Unverified(c) in old(files) ==> env.removeUnverifiedOk) && env.createOk
      ensures ok ==> Final(c) !in files && Unverified(c) in files && files[Unverified(c)] == []
    {
      if Final(c) in files {
        if !env.removeOk { return false; }
        Do(Remove(Final(c)));
      }
      if Unverified(c) in files {
        if !env.removeUnverifiedOk { return false; }
        Do(Remove(Unverified(c)));
      }
      if !env.createOk { return false; }
      Do(Create(Unverified(c)));
      ok := true;
    }

    // Write what one read delivered.
    method WriteChunk(c: Component, chunk: Chunk) returns (ok: bool)
      requires FilesOk() && Unverified(c) in files
      modifies `files, `log
      ensures FilesOk() && old(log) <= log && Others(files, c) == old(Others(files, c))
      ensures Final(c) in files <==> Final(c) in old(files)
      ensures ok <==> WrittenFully(chunk)
      ensures ok ==> Holds(files, Unverified(c), old(files)[Unverified(c)] + chunk.data)
    {
      var nr := |chunk.data|;
      if nr > 0 {
        var nw := Written(chunk);
        Do(Append(Unverified(c), chunk.data[..nw]));
        if nw < nr { return false; }
        if !chunk.writeOk { return false; }
      }
      ok := true;
    }

    // Copy the response body to the unverified file until a write falls short.
    method WriteBody(c: Component, chunks: seq<Chunk>) returns (ok: bool)
      requires FilesOk() && Holds(files, Unverified(c), [])
      modifies `files, `log
      ensures FilesOk() && old(log) <= log && Others(files, c) == old(Others(files, c))
      ensures Final(c) in files <==> Final(c) in old(files)
      ensures ok <==> FullyWritten(chunks)
      ensures ok ==> Holds(files, Unverified(c), Body(chunks, |chunks|))
    {
      for i := 0 to |chunks|
        invariant FilesOk() && old(log) <= log && Others(files, c) == old(Others(files, c))
        invariant Holds(files, Unverified(c), Body(chunks, i)) && WrittenUpTo(chunks, i)
        invariant Final(c) in files <==> Final(c) in old(files)
      {
        ok := WriteChunk(c, chunks[i]);
        if !ok { return; }
      }
      ok := true;
    }

    method DownloadFile(c: Component, env: DownloadEnv) returns (ok: bool)
      requires FilesOk()
      modifies `files, `log
      ensures FilesOk() && old(log) <= log && Others(files, c) == old(Others(files, c))
      ensures ok <==> c in statuses && DownloadSucceeds(old(files), c, env)
      ensures ok ==> Final(c) !in files
      ensures ok ==> Holds(files, Unverified(c), Body(env.chunks, |env.chunks|))
    {
      if c !in statuses { return false; }
      ok := StartFile(c, env);
      if !ok { return; }
      if !env.requestOk || !env.responseOk { return false; }
      if env.status != HTTP_OK { return false; }
      if env.contentLength <= 0 { return false; }
      ok := WriteBody(c, env.chunks);
      if !ok { return; }
      if !env.eof { return false; }
      ok := env.syncOk;
    }

    method VerifyFile(c: Component, expectedHash: string, env: VerifyEnv) returns (ok: bool)
      requires FilesOk()
      modifies `files, `log
      ensures FilesOk() && old(log) <= log && Others(files, c) == old(Others(files, c))
      ensures ok <==> Unverified(c) in old(files) && VerifySucceeds(old(files)[Unverified(c)], expectedHash, env, sha)
      ensures ok ==> Final(c) in files && files[Final(c)] == old(files)[Unverified(c)]
      ensures files == old(files) || (Final(c) in files && sha(files[Final(c)]) == expectedHash)
    {
      if Unverified(c) !in files || !env.openOk { return false; }
      if !env.statOk { return false; }
      var content := files[Unverified(c)];
      var hashed: Bytes := [];
      while |hashed| < |content|
        invariant |hashed| <= |content| && hashed == content[..|hashed|]
        decreases |content| - |hashed|
      {
        var n := if |content| - |hashed| < BUFFER_SIZE then |content| - |hashed| else BUFFER_SIZE;
        hashed := hashed + content[|hashed|..|hashed| + n];
      }
      assert hashed == content;
      if !env.readOk { return false; }
      if sha(hashed) != expectedHash { return false; }
      if !env.renameOk { return false; }
      Do(Rename(Unverified(c), Final(c), expectedHash));
      ok := env.chmodOk;
    }

    method ComponentUpdateError()
      modifies `failed, `updating
      ensures failed && !updating
    {
      failed := true;
      updating := false;
    }

    // The final file is exactly what was downloaded, and has the given hash.
    ghost predicate Fetched(c: Component, hash: string, env: ComponentEnv)
      reads `files
    {
      && Final(c) in files && sha(files[Final(c)]) == hash
      && files[Final(c)] == Body(env.download.chunks, |env.download.chunks|)
    }

    method UpdateApp(hash: string, env: ComponentEnv) returns (ok: bool)
      requires FilesOk()
      modifies `files, `log, `failed, `updating, `rebootNeeded
      ensures FilesOk() && old(log) <= log && Others(files, App) == old(Others(files, App))
      ensures ok <==> App in statuses && FetchSucceeds(old(files), App, hash, env, sha)
      ensures ok ==> rebootNeeded && Fetched(App, hash, env) && updating == old(updating) && failed == old(failed)
      ensures !ok ==> !updating && failed && rebootNeeded == old(rebootNeeded)
    {
      ok := DownloadFile(App, env.download);
      if !ok {
        ComponentUpdateError();
        return;
      }
      ok := VerifyFile(App, hash, env.verify);
      if !ok {
        ComponentUpdateError();
        return;
      }
      rebootNeeded := true;
    }

    method UpdateSystem(hash: string, env: ComponentEnv, toolStarts: bool, toolSucceeds: bool) returns (ok: bool)
      requires FilesOk()
      modifies `files, `log, `failed, `updating, `rebootNeeded
      ensures FilesOk() && old(log) <= log && Others(files, System) == old(Others(files, System))
      ensures ok <==> System in statuses && FetchSucceeds(old(files), System, hash, env, sha)
                      && toolStarts && toolSucceeds
      ensures ok ==> rebootNeeded && Fetched(System, hash, env) && updating == old(updating) && failed == old(failed)
      ensures !ok ==> !updating && failed && rebootNeeded == old(rebootNeeded)
    {
      ok := DownloadFile(System, env.download);
      if !ok {
        ComponentUpdateError();
        return;
      }
      ok := VerifyFile(System, hash, env.verify);
      if !ok {
        ComponentUpdateError();
        return;
      }
      ok := toolStarts && toolSucceeds;
      if !ok {
        ComponentUpdateError();
        return;
      }
      rebootNeeded := true;
    }

    function Current(c: Component): Status
      reads `statuses
    {
      StatusOf(statuses, c)
    }

    // Checks both components against the release; on success both are stored.
    method GetUpdateStatus(requested: map<string, string>, env: Env) returns (r: Option<(Status, Status)>)
      modifies `statuses
      ensures r.None? ==> statuses == old(statuses)
      ensures r.Some? <==> env.localOk && env.fetchOk && env.app.parseOk && env.sys.parseOk
      ensures r.Some? ==>
                && Checked(old(Current(App)), App, env, requested) == Some(r.value.0)
                && Checked(old(Current(System)), System, env, requested) == Some(r.value.1)
                && statuses == old(statuses)[App := r.value.0][System := r.value.1]
    {
      if !env.localOk || !env.fetchOk { return None; }
      var app := Checked(Current(App), App, env, requested);
      if app.None? { return None; }
      var sys := Checked(Current(System), System, env, requested);
      if sys.None? { return None; }
      statuses := statuses[App := app.value][System := sys.value];
      r := Some((app.value, sys.value));
    }

    // The component's update file is in place: what this run downloaded, with the
    // hash this run's release data gives.
    ghost predicate Installed(c: Component, env: Env)
      reads `files
    {
      Fetched(c, ReleaseOf(env, c).hash, Of(env, c))
    }

    // How a run ends.
    function RunOutcome(params: Params, env: Env): Outcome
      reads `updating, `statuses, `files
    {
      var requested := Requested(params);
      if updating then AlreadyUpdating
      else if Key(App) !in requested && Key(System) !in requested then NoComponents
      else CheckedOutcome(Current(App), Current(System), files, params, requested, env, sha)
    }

    // What is there to install: an update found now, or one left by an earlier call.
    predicate Due(params: Params, env: Env, c: Component)
      reads `statuses
    {
      Current(c).pending || Wants(params, env, c)
    }

    // The call gets as far as knowing what is due.
    predicate Checks(params: Params, env: Env)
      reads `updating
    {
      && !updating && (|params.components| > 0 ==> "app" in params.components || "system" in params.components)
      && env.localOk && env.fetchOk && env.app.parseOk && env.sys.parseOk
    }

    predicate AppWorks(env: Env)
      reads `files
    {
      FetchSucceeds(files, App, env.appRelease.hash, env.app, sha)
    }

    predicate SystemWorks(env: Env)
      reads `files
    {
      FetchSucceeds(files, System, env.sysRelease.hash, env.sys, sha) && env.toolStarts && env.toolSucceeds
    }

    // The conditions under which a call ends with a reboot.
    predicate Reboots(params: Params, env: Env)
      reads `updating, `statuses, `files
    {
      && Checks(params, env) && (Due(params, env, App) || Due(params, env, System))
      && (Due(params, env, App) ==> AppWorks(env)) && (Due(params, env, System) ==> SystemWorks(env))
      && (params.resetConfig ==> env.resetOk) && env.rebootOk
    }

    lemma EndsExactly(params: Params, env: Env)
      ensures var r := RunOutcome(params, env);
              && (r.Rebooting? <==> Reboots(params, env))
              && (GotChecked(r) <==> Checks(params, env))
              && (r.UpToDate? <==> Checks(params, env) && !Due(params, env, App) && !Due(params, env, System))
              && (r.NoComponents? <==> !updating && |params.components| > 0
                                       && "app" !in params.components && "system" !in params.components)
    {}

    // Which fault a call with something due ends with: the first one in the order app,
    // system, reset, reboot.
    lemma FaultsExactly(params: Params, env: Env)
      requires Checks(params, env)
      ensures var r, app, sys := RunOutcome(params, env), Due(params, env, App), Due(params, env, System);
              && (r.AppFailed? <==> app && !AppWorks(env))
              && (r.SystemFailed? <==> (app ==> AppWorks(env)) && sys && !SystemWorks(env))
              && (r.ResetFailed? || r.RebootFailed? || r.Rebooting? <==>
                    (app || sys) && (app ==> AppWorks(env)) && (sys ==> SystemWorks(env)))
              && (r.ResetFailed? ==> params.resetConfig && !env.resetOk)
              && (r.RebootFailed? ==> (params.resetConfig ==> env.resetOk) && !env.rebootOk)
    {}

    // The status check, after which a component that was asked for and has an
    // update is marked pending.
    method MarkPending(components: map<string, string>, env: Env) returns (r: Option<(Status, Status)>)
      modifies `statuses
      ensures r.Some? <==> env.localOk && env.fetchOk && env.app.parseOk && env.sys.parseOk
      ensures r.None? ==> statuses == old(statuses)
      ensures r.Some? ==>
                && r.value.0.hash == env.appRelease.hash && r.value.1.hash == env.sysRelease.hash
                && (r.value.0.pending <==> PendingNow(old(Current(App)), App, env, components))
                && (r.value.1.pending <==> PendingNow(old(Current(System)), System, env, components))
                && statuses == MarkedAll(old(statuses), components, env)
                && Current(App) == r.value.0 && Current(System) == r.value.1
    {
      var found := GetUpdateStatus(components, env);
      if found.None? { return None; }
      var (app, sys) := found.value;
      if "app" in components && app.available {
        app := app.(pending := true);
        statuses := statuses[App := app];
      }
      if "system" in components && sys.available {
        sys := sys.(pending := true);
        statuses := statuses[System := sys];
      }
      r := Some((app, sys));
    }

    method FetchPending(env: Env, app: Status, sys: Status) returns (fault: Option<Outcome>)
      requires FilesOk() && App in statuses && System in statuses
      requires app.hash == env.appRelease.hash && sys.hash == env.sysRelease.hash
      modifies `updating, `rebootNeeded, `failed, `files, `log
      ensures FilesOk() && old(log) <= log && fault == Fault(old(files), env, app.pending, sys.pending, sha)
      ensures fault.Some? ==> !updating && failed
      ensures fault.None? ==>
                && (app.pending ==> Installed(App, env)) && (sys.pending ==> Installed(System, env))
                && updating == old(updating) && failed == old(failed)
                && (rebootNeeded <==> old(rebootNeeded) || app.pending || sys.pending)
    {
      if app.pending {
        var ok := UpdateApp(app.hash, env.app);
        if !ok {
          ComponentUpdateError();
          return Some(AppFailed);
        }
      }
      if sys.pending {
        ghost var before := files;
        OthersDecide(old(files), files, App, Final(System));
        OthersDecide(old(files), files, App, Unverified(System));
        var ok := UpdateSystem(sys.hash, env.sys, env.toolStarts, env.toolSucceeds);
        OthersDecide(before, files, System, Final(App));
        if !ok {
          ComponentUpdateError();
          return Some(SystemFailed);
        }
      }
      fault := None;
    }

    // The second half of doUpdate.
    method Install(params: Params, env: Env, app: Status, sys: Status) returns (r: Outcome)
      requires FilesOk() && updating
      requires app.hash == env.appRelease.hash && sys.hash == env.sysRelease.hash
      requires App in statuses && System in statuses
      modifies `updating, `rebootNeeded, `failed, `files, `log
      ensures FilesOk() && old(log) <= log
      ensures r == InstallOutcome(old(files), params, env, app.pending, sys.pending, sha)
      ensures failed == (old(failed) || Failure(r))
      ensures r.UpToDate? ==> files == old(files)
      ensures r.RebootFailed? || r.Rebooting? ==>
                (app.pending ==> Installed(App, env)) && (sys.pending ==> Installed(System, env))
      ensures updating <==> r.Rebooting?
    {
      if !app.pending && !sys.pending {
        updating := false;
        return UpToDate;
      }
      var fault := FetchPending(env, app, sys);
      if fault.Some? { return fault.value; }
      if !rebootNeeded {
        assert false;
        return Finished;
      }
      if params.resetConfig && !env.resetOk {
        ComponentUpdateError();
        return ResetFailed;
      }
      if !env.rebootOk {
        ComponentUpdateError();
        return RebootFailed;
      }
      r := Rebooting;
    }

    method CheckAndInstall(params: Params, components: map<string, string>, env: Env) returns (r: Outcome)
      requires FilesOk() && updating
      modifies `updating, `rebootNeeded, `failed, `statuses, `files, `log
      ensures FilesOk() && old(log) <= log && (updating <==> r.Rebooting?)
      ensures failed == (old(failed) || Failure(r))
      ensures r == old(CheckedOutcome(Current(App), Current(System), files, params, components, env, sha))
      ensures r.CheckFailed? ==> files == old(files) && statuses == old(statuses)
      ensures r.UpToDate? ==> files == old(files)
      ensures !r.CheckFailed? ==> env.app.parseOk && env.sys.parseOk
      ensures !r.CheckFailed? ==> statuses == MarkedAll(old(statuses), components, env)
      ensures r.RebootFailed? || r.Rebooting? ==>
                (Current(App).pending ==> Installed(App, env)) && (Current(System).pending ==> Installed(System, env))
    {
      var found := MarkPending(components, env);
      if found.None? {
        ComponentUpdateError();
        return CheckFailed;
      }
      r := Install(params, env, found.value.0, found.value.1);
    }

    method DoUpdate(params: Params, env: Env) returns (r: Outcome)
      requires FilesOk()
      modifies `updating, `rebootNeeded, `failed, `statuses, `files, `log
      ensures FilesOk() && old(log) <= log
      ensures r == old(RunOutcome(params, env)) && failed == (old(failed) || Failure(r))
      ensures PossibleEnd(r) && updating == StillUpdating(r)
      ensures r.AlreadyUpdating? ==> files == old(files) && rebootNeeded == old(rebootNeeded) && log == old(log)
      ensures r.NoComponents? || r.CheckFailed? || r.UpToDate? ==> files == old(files)
      ensures r.RebootFailed? || r.Rebooting? ==>
                (Current(App).pending ==> Installed(App, env)) && (Current(System).pending ==> Installed(System, env))
      ensures !GotChecked(r) ==> statuses == old(statuses)
      ensures GotChecked(r) ==> env.app.parseOk && env.sys.parseOk
      ensures GotChecked(r) ==> statuses == MarkedAll(old(statuses), Requested(params), env)
    {
      if updating { return AlreadyUpdating; }
      updating := true;
      var components := Requested(params);
      var shouldUpdateApp := "app" in components;
      var shouldUpdateSystem := "system" in components;
      if !shouldUpdateApp && !shouldUpdateSystem {
        ComponentUpdateError();
        return NoComponents;
      }
      r := CheckAndInstall(params, components, env);
    }

    // A run under the mutex, recorded with its outcome.
    method Recorded(params: Params, env: Env) returns (r: Outcome)
      requires Valid()
      modifies `updating, `rebootNeeded, `failed, `statuses, `files, `log, `calls
      ensures Valid() && r == old(RunOutcome(params, env)) && PossibleEnd(r)
      ensures calls == old(calls) + [Call(params, env, r)] && old(log) <= log
      ensures (updating <==> old(updating) || r.Rebooting?) && (failed <==> old(failed) || Failure(r))
      ensures statuses == if GotChecked(r) then MarkedAll(old(statuses), Requested(params), env) else old(statuses)
      ensures Effect(Call(params, env, r), old(statuses), statuses)
      ensures !GotChecked(r) || r.UpToDate? ==> files == old(files)
      ensures r.RebootFailed? || r.Rebooting? ==>
                (Current(App).pending ==> Installed(App, env)) && (Current(System).pending ==> Installed(System, env))
    {
      r := DoUpdate(params, env);
      ghost var call := Call(params, env, r);
      if GotChecked(r) { MarkedEffect(call, old(statuses)); }
      OneMoreCall(calls, call, old(updating), old(failed), old(statuses), statuses);
      calls := calls + [call];
    }

    // A call that finds the mutex held changes nothing; nothing is known then of
    // the run that holds it.
    method TryUpdate(params: Params, env: Env) returns (r: Outcome)
      requires !mu ==> Valid()
      modifies this
      ensures old(mu) ==> r == Locked && unchanged(this)
      ensures !old(mu) ==> Valid() && !mu && r == old(RunOutcome(params, env)) && PossibleEnd(r)
      ensures !old(mu) ==> calls == old(calls) + [Call(params, env, r)] && old(log) <= log
      ensures !old(mu) ==> (updating <==> old(updating) || r.Rebooting?) && (failed <==> old(failed) || Failure(r))
      ensures !old(mu) ==>
                statuses == if GotChecked(r) then MarkedAll(old(statuses), Requested(params), env) else old(statuses)
      ensures !old(mu) ==> Effect(Call(params, env, r), old(statuses), statuses)
      ensures !old(mu) ==> (r.Rebooting? <==> old(Reboots(params, env)))
                           && (GotChecked(r) <==> old(Checks(params, env)))
      ensures !old(mu) && GotChecked(r) ==> forall c: Component :: Current(c).pending <==> old(Due(params, env, c))
      ensures |params.components| == 0 ==> !r.NoComponents?
      ensures !old(mu) ==> (failed <==> old(failed) || !(r.UpToDate? || r.Rebooting? || r.AlreadyUpdating?))
      ensures !GotChecked(r) || r.UpToDate? ==> files == old(files)
      ensures r.RebootFailed? || r.Rebooting? ==>
                (Current(App).pending ==> Installed(App, env)) && (Current(System).pending ==> Installed(System, env))
    {
      if mu { return Locked; }
      EndsExactly(params, env);
      mu := true;
      r := Recorded(params, env);
      forall c: Component { WantsExactly(Call(params, env, r), c); }
      mu := false;
    }
  }

  // Releases of which some are newer, and whose downloads work or not.
  function Offer(sha: Bytes -> string, body: Bytes, appNewer: bool, sysNewer: bool, works: bool): Env {
    var download := DownloadEnv(true, true, true, works, true, 200, 1, [Chunk(body, |body|, true)], true, true);
    var verify := VerifyEnv(true, true, true, true, true);
    Env(true, true, Release("2", "app", sha(body)), Release("2", "system", sha(body)),
        ComponentEnv("1", true, appNewer, download, verify), ComponentEnv("1", true, sysNewer, download, verify),
        true, true, true, true)
  }

  function AppOnly(sha: Bytes -> string, body: Bytes, works: bool): Env { Offer(sha, body, true, false, works) }

  lemma OfferFetched(sha: Bytes -> string, body: Bytes, appNewer: bool, sysNewer: bool, fs: Files, c: Component)
    ensures FetchSucceeds(fs, c, sha(body), Of(Offer(sha, body, appNewer, sysNewer, true), c), sha)
    ensures !FetchSucceeds(fs, c, sha(body), Of(Offer(sha, body, appNewer, sysNewer, false), c), sha)
  {
    var chunks := [Chunk(body, |body|, true)];
    assert Body(chunks, 0) == [];
    assert Body(chunks, 1) == Body(chunks, 0) + chunks[0].data == body;
  }

  const EVERYTHING: Params := Params(map[], false)
  const SYSTEM_ONLY: Params := Params(map["system" := ""], false)

  // The app's download fails; a later call that asks for the system only installs
  // the app all the same.
  method InstallsUnasked(sha: Bytes -> string, body: Bytes) returns (s: State, first: Outcome, second: Outcome)
    ensures s.calls == [Call(EVERYTHING, AppOnly(sha, body, false), first),
                        Call(SYSTEM_ONLY, AppOnly(sha, body, true), second)]
    ensures first == AppFailed && second == Rebooting
    ensures !FoundNow(App, AppOnly(sha, body, true), Requested(SYSTEM_ONLY))
    ensures s.sha == sha && s.Installed(App, AppOnly(sha, body, true))
  {
    s := new State(sha, map[]);
    OfferFetched(sha, body, true, false, s.files, App);
    first := s.TryUpdate(EVERYTHING, AppOnly(sha, body, false));
    OfferFetched(sha, body, true, false, s.files, App);
    second := s.TryUpdate(SYSTEM_ONLY, AppOnly(sha, body, true));
  }

  // Only the system has a newer release; a call that names no components installs it.
  method NothingNamedMeansBoth(sha: Bytes -> string, body: Bytes) returns (s: State, r: Outcome)
    ensures s.calls == [Call(EVERYTHING, Offer(sha, body, false, true, true), r)] && r == Rebooting
    ensures s.sha == sha && s.Installed(System, Offer(sha, body, false, true, true))
    ensures !s.Current(App).pending && s.Current(System).pending
  {
    s := new State(sha, map[]);
    OfferFetched(sha, body, false, true, s.files, System);
    r := s.TryUpdate(EVERYTHING, Offer(sha, body, false, true, true));
  }

  // After any number of calls, at every moment since the start: what stands at a
  // final path was there from the start or had its hash checked.
  lemma EveryMomentVouched(s: State, k: nat, c: Component)
    requires s.Valid() && k <= |s.log| && Final(c) in FilesAt(s.initial, s.log, k)
    ensures Vouched(s.initial, s.log, k, Final(c), FilesAt(s.initial, s.log, k)[Final(c)], s.sha)
  {
    FinalPathsVouched(s.initial, s.log, k, Final(c), s.sha);
  }
}
