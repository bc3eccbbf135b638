/**
 * The `ASR` class of lib/asr.py: a transcription job with its source URL,
 * its task id and the result payload, driven against a transport, a clock
 * and a file system that stand for the service SDK, `time.sleep` and the
 * disk.
 */
module Asr {
  import opened Wrappers
  import opened Transcript
  import opened TimeCode
  import opened Render
  import opened Polling
  import opened Sorting

  /** The two actions the client sends: `SubmitTask` (POST, the task in the body) and `GetTaskResult` (GET, `TaskId` in the query). */
  datatype Request =
    | SubmitTask(appKey: string, fileLink: string, version: string, enableWords: bool, enableSampleRateAdaptive: bool)
    | GetTaskResult(taskId: string)

  /** n copies of x. */
  function Repeat<T>(x: T, n: nat): (r: seq<T>)
    ensures |r| == n && forall i :: 0 <= i < n ==> r[i] == x
  {
    if n == 0 then [] else Repeat(x, n - 1) + [x]
  }

  /**
   * The service transport: each call takes the next scripted outcome; once
   * the script is used up, every call fails as a client exception would.
   */
  class Client {
    const appKey: string
    var script: seq<Outcome>
    var sent: seq<Request>

    constructor (appKey: string, script: seq<Outcome>)
      ensures this.appKey == appKey && this.script == script && sent == []
    {
      this.appKey := appKey;
      this.script := script;
      sent := [];
    }

    /** `do_action_with_exception`, with the reply decoded. */
    method Perform(request: Request) returns (o: Outcome)
      modifies this
      ensures sent == old(sent) + [request]
      ensures old(script) == [] ==> o == Fault && script == []
      ensures old(script) != [] ==> o == old(script)[0] && script == old(script)[1..]
    {
      sent := sent + [request];
      if script == [] {
        o := Fault;
      } else {
        o := script[0];
        script := script[1..];
      }
    }
  }

  /** `time.sleep`, recording each delay. */
  class Clock {
    var slept: seq<nat>

    constructor ()
      ensures slept == []
    {
      slept := [];
    }

    method Sleep(delay: nat)
      modifies this
      ensures slept == old(slept) + [delay]
    {
      slept := slept + [delay];
    }
  }

  /** The files on disk, by path. */
  class FileSystem {
    var files: map<string, Content>

    constructor (files: map<string, Content>)
      ensures this.files == files
    {
      this.files := files;
    }

    /** Open for writing, which empties (or creates) the file, and write c. */
    method Write(path: string, c: Content)
      modifies this
      ensures files == old(files)[path := c]
    {
      files := files[path := c];
    }

    /** Write text at the end of a file open for writing. */
    method Append(path: string, text: string)
      requires path in files && files[path].Text?
      modifies this
      ensures files == old(files)[path := Text(old(files)[path].text + text)]
    {
      files := files[path := Text(files[path].text + text)];
    }
  }

  /** The loop of `to_srt`: write the cue of each item, numbered from 0, at the end of the file. */
  method WriteCues(fs: FileSystem, path: string, items: seq<Sentence>)
    requires path in fs.files && fs.files[path] == Text("")
    modifies fs
    ensures fs.files == old(fs.files)[path := Text(CuesText(Enumerate(items, 0)))]
  {
    ghost var cues := Enumerate(items, 0);
    for ith := 0 to |items|
      invariant fs.files == old(fs.files)[path := Text(CuesText(cues[..ith]))]
    {
      var item := items[ith];
      var start := Time(item.beginTime);
      var end := Time(item.endTime);
      var piece := Digits(ith) + "\n" + start + " --> " + end + "\n" + item.text + "\n\n";
      assert piece == CueText(cues[ith]);
      ghost var before := CuesText(cues[..ith]);
      fs.Append(path, piece);
      UpdateTwice(old(fs.files), path, Text(before), Text(before + piece));
      CuesTextSnoc(cues, ith);
    }
    assert cues[..|items|] == cues;
  }

  lemma UpdateTwice<K, V>(m: map<K, V>, k: K, a: V, b: V)
    ensures m[k := a][k := b] == m[k := b]
  {
  }

  lemma CuesTextSnoc(cues: seq<Cue>, i: nat)
    requires i < |cues|
    ensures CuesText(cues[..i + 1]) == CuesText(cues[..i]) + CueText(cues[i])
  {
    assert cues[..i + 1][..i] == cues[..i];
  }

  /** Why `from_backup` gets no job: no such file, or a file that holds no backup record. */
  datatype LoadError = Missing | NotBackup

  class Asr {
    const url: string
    var data: Option<Response>
    var taskId: Option<string>

    /** `ASR(url)`: a new job, neither submitted nor finished. */
    constructor (url: string)
      ensures this.url == url && data == None && taskId == None
    {
      this.url := url;
      data := None;
      taskId := None;
    }

    /** `ASR.from_backup(path)`: a job with the stored url and data, and no task id. */
    static method FromBackup(fs: FileSystem, path: string) returns (r: Result<Asr, LoadError>)
      ensures path !in fs.files ==> r == Failure(Missing)
      ensures path in fs.files && fs.files[path].Text? ==> r == Failure(NotBackup)
      ensures path in fs.files && fs.files[path].Record? ==>
        r.Success? && fresh(r.value)
        && r.value.url == fs.files[path].backup.url
        && r.value.data == fs.files[path].backup.data
        && r.value.taskId == None
    {
      if path !in fs.files {
        return Failure(Missing);
      }
      match fs.files[path]
      case Text(_) =>
        r := Failure(NotBackup);
      case Record(backup) =>
        var job := new Asr(backup.url);
        job.data := backup.data;
        r := Success(job);
    }

    /**
     * `upload`: submit the URL as a transcription task. The task id is set
     * from the reply only when its status is SUCCESS; on any other status or
     * a transport exception nothing changes and `ok` is false (Python's
     * `upload` returns None).
     */
    method Upload(client: Client) returns (ok: bool)
      modifies this`taskId, client
      ensures client.sent == old(client.sent) + [SubmitTask(client.appKey, url, "4.0", true, true)]
      ensures client.script == if old(client.script) == [] then [] else old(client.script)[1..]
      ensures ok <==> old(client.script) != [] && Accepted(old(client.script)[0])
      ensures taskId == if ok then Some(old(client.script)[0].response.taskId) else old(taskId)
    {
      var response := client.Perform(SubmitTask(client.appKey, url, "4.0", true, true));
      ok := response.Reply? && response.response.statusText == "SUCCESS";
      if ok {
        taskId := Some(response.response.taskId);
      }
    }

    /**
     * `polling`: ask for the task's result until a reply whose status is
     * neither RUNNING nor QUEUEING, which becomes the job's data; sleep for
     * `delay` after each pending reply and retry at once after a transport
     * exception. The scripted transport is finite: when it runs out before a
     * terminal reply, `done` is false and the data is unchanged. Everything
     * is as `Poll` says of the script.
     */
    method Polling(client: Client, clock: Clock, delay: nat := 10) returns (done: bool)
      requires taskId.Some?
      modifies this`data, client, clock
      ensures var t := Poll(old(client.script));
        done == t.result.Some?
        && data == (if done then t.result else old(data))
        && clock.slept == old(clock.slept) + Repeat(delay, t.sleeps)
        && client.script == old(client.script)[t.consumed..]
        && client.sent == old(client.sent) + Repeat(GetTaskResult(taskId.value), t.consumed)
    {
      var request := GetTaskResult(taskId.value);
      ghost var script0 := client.script;
      ghost var sleeps: nat := 0;
      ghost var consumed: nat := 0;
      done := false;
      while !done && client.script != []
        invariant consumed <= |script0| && client.script == script0[consumed..]
        invariant clock.slept == old(clock.slept) + Repeat(delay, sleeps)
        invariant client.sent == old(client.sent) + Repeat(request, consumed)
        invariant !done ==> data == old(data)
        invariant !done ==> Poll(script0) == Trace(Poll(client.script).result,
          sleeps + Poll(client.script).sleeps, consumed + Poll(client.script).consumed)
        invariant done ==> data.Some? && Poll(script0) == Trace(data, sleeps, consumed)
        decreases |client.script|
      {
        var response := client.Perform(request);
        assert client.script == script0[consumed + 1..];
        consumed := consumed + 1;
        if response.Reply? {
          if !IsPending(response.response.statusText) {
            data := Some(response.response);
            done := true;
          } else {
            clock.Sleep(delay);
            sleeps := sleeps + 1;
          }
        }
      }
    }

    /**
     * `to_srt`: the cues of the channel's sentences, sorted by begin time,
     * written one by one into the emptied file. A job with no data, or whose
     * reply has no result, fails before the file is opened.
     */
    method ToSrt(fs: FileSystem, path: string, ch: int := 0) returns (err: Option<RenderError>)
      modifies fs
      ensures var want := RenderKind(SrtKind, url, data, ch);
        if want.Success? then err == None && fs.files == old(fs.files)[path := want.value]
        else err == Some(want.error) && fs.files == old(fs.files)
    {
      if data.None? {
        return Some(NoData);
      }
      if data.value.sentences.None? {
        return Some(NoResult);
      }
      var items := SortByBegin(OnChannel(data.value.sentences.value, ch));
      fs.Write(path, Text(""));
      WriteCues(fs, path, items);
      UpdateTwice(old(fs.files), path, Text(""), Text(Srt(data.value.sentences.value, ch)));
      err := None;
    }

    /** `to_txt`: the channel's texts in the result's order, joined by newlines. */
    method ToTxt(fs: FileSystem, path: string, ch: int := 0) returns (err: Option<RenderError>)
      modifies fs
      ensures var want := RenderKind(TxtKind, url, data, ch);
        if want.Success? then err == None && fs.files == old(fs.files)[path := want.value]
        else err == Some(want.error) && fs.files == old(fs.files)
    {
      if data.None? {
        return Some(NoData);
      }
      if data.value.sentences.None? {
        return Some(NoResult);
      }
      fs.Write(path, Text(Txt(data.value.sentences.value, ch)));
      err := None;
    }

    /** `to_backup`: the record of the url and the data; the channel plays no part. */
    method ToBackup(fs: FileSystem, path: string, ch: int := 0) returns (err: Option<RenderError>)
      modifies fs
      ensures err == None && fs.files == old(fs.files)[path := Record(Backup(url, data))]
    {
      fs.Write(path, Record(Backup(url, data)));
      err := None;
    }

    /** `mapper[path.suffix](path, channel_id)` for one path. */
    method Dispatch(fs: FileSystem, mapper: seq<(string, Option<Kind>)>, path: string, ch: int) returns (err: Option<RenderError>)
      requires mapper == Mapper(Attributes)
      modifies fs
      ensures var want := RenderPath(path, url, data, ch);
        if want.Success? then err == None && fs.files == old(fs.files)[path := want.value]
        else err == Some(want.error) && fs.files == old(fs.files)
    {
      var suffix := Suffix(path);
      match Lookup(suffix, mapper) {
        case Some(Some(SrtKind)) =>
          err := ToSrt(fs, path, ch);
        case Some(Some(TxtKind)) =>
          err := ToTxt(fs, path, ch);
        case Some(Some(BackupKind)) =>
          err := ToBackup(fs, path, ch);
        case _ =>
          err := Some(UnknownSuffix(suffix));
      }
    }

    /**
     * `to(*paths, channel_id=ch)`: render each path, in order, with the
     * renderer its suffix names in the mapper; stop at the first path that
     * fails, with the files earlier paths wrote left in place.
     */
    method To(fs: FileSystem, paths: seq<string>, ch: int := 0) returns (failure: Option<(nat, RenderError)>)
      modifies fs
      ensures var r := RenderAll(old(fs.files), paths, url, data, ch);
        fs.files == r.files && failure == r.failure
    {
      var mapper := Mapper(Attributes);
      for i := 0 to |paths|
        invariant RenderAll(old(fs.files), paths[..i], url, data, ch) == Run(fs.files, None)
      {
        var err := Dispatch(fs, mapper, paths[i], ch);
        RenderAllStep(old(fs.files), paths, i, url, data, ch);
        if err.Some? {
          failure := Some((i, err.value));
          RenderAllStop(old(fs.files), paths, i + 1, url, data, ch);
          return;
        }
      }
      assert paths[..|paths|] == paths;
      failure := None;
    }

    /** `to_backup` and then `from_backup` on the same path restore the job's url and data, without a task id. */
    method BackupRoundTrip(fs: FileSystem, path: string) returns (restored: Asr)
      modifies fs
      ensures fs.files == old(fs.files)[path := Record(Backup(url, data))]
      ensures fresh(restored) && restored.url == url && restored.data == data && restored.taskId == None
    {
      var _ := ToBackup(fs, path, 0);
      var r := FromBackup(fs, path);
      restored := r.value;
    }
  }
}
