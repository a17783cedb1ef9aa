/** One ffmpeg job's action: whatever goes wrong with whichever output, nothing produced is left behind. */
module FfmpegActions {
  import opened GoText
  import opened TempObjects

  datatype SliceResult = SliceResult(s3Path: Path, startTime: int, endTime: int)

  /** The outputs of a job, with the handles that own their objects. */
  datatype JobResult = JobResult(paths: seq<SliceResult>, s3Data: seq<Handle>)

  /**
   What ffmpeg and the bucket do: the pieces produced, if ffmpeg succeeds, and for each whether it can be wrapped and
   uploaded.
   */
  datatype ActionWorld = ActionWorld(wrapFailsAt: Option<nat>, uploads: seq<Option<Path>>)

  function UploadOf(w: ActionWorld, i: nat): Option<Path> {
    if i < |w.uploads| then w.uploads[i] else None
  }

  predicate Succeeds(w: ActionWorld, i: nat) {
    w.wrapFailsAt != Some(i) && UploadOf(w, i).Some?
  }

  /** A handle that owns an uploaded object and its data, all still open. */
  predicate OpenOutput(h: Handle, data: Data)
    reads h, data
  {
    !h.closed && h.owned && h.physical == data && h.s3path.Some? && h.deletions == 0 && data.closes == 0
  }

  /** Wraps and uploads one output; on failure its data, and its object if there is one, are closed. */
  method Deliver(data: Data, wraps: bool, upload: Option<Path>) returns (h: Handle?)
    requires data.closes == 0
    modifies data
    ensures h != null <==> wraps && upload.Some?
    ensures h != null ==> fresh(h) && OpenOutput(h, data) && h.s3path == upload
    ensures h == null ==> data.closes == 1
  {
    if !wraps {
      data.Close();
      return null;
    }
    var wrapped := new Handle.FromLocal(data);
    var path := wrapped.GetS3Path(upload);
    if path.None? {
      wrapped.Close();
      assert wrapped.deletions == 0;
      return null;
    }
    h := wrapped;
  }

  /** The loop of the slice action. made is every handle created on the way. */
  method DeliverSlices(raw: seq<RawSlice>, w: ActionWorld) returns (r: Result<JobResult>)
    requires forall i :: 0 <= i < |raw| ==> raw[i].data.closes == 0
    requires forall i, j :: 0 <= i < j < |raw| ==> raw[i].data != raw[j].data
    modifies RawData(raw)
    ensures r.Ok? <==> forall i :: 0 <= i < |raw| ==> Succeeds(w, i)
    ensures r.Ok? ==>
              && |r.value.s3Data| == |r.value.paths| == |raw|
              && (forall i :: 0 <= i < |raw| ==> fresh(r.value.s3Data[i]) && OpenOutput(r.value.s3Data[i], raw[i].data))
              && (forall i :: 0 <= i < |raw| ==>
                    Some(r.value.paths[i].s3Path) == r.value.s3Data[i].s3path
                    && r.value.paths[i].startTime == raw[i].startTime && r.value.paths[i].endTime == raw[i].endTime)
    ensures r.Err? ==> forall i :: 0 <= i < |raw| ==> raw[i].data.closes == 1
  {
    var paths: seq<SliceResult>, s3Data: seq<Handle> := [], [];
    for i := 0 to |raw|
      invariant |s3Data| == |paths| == i
      invariant forall k :: 0 <= k < i ==> Succeeds(w, k) && fresh(s3Data[k]) && OpenOutput(s3Data[k], raw[k].data)
      invariant forall k :: 0 <= k < i ==>
                  Some(paths[k].s3Path) == s3Data[k].s3path && paths[k].startTime == raw[k].startTime
                    && paths[k].endTime == raw[k].endTime
      invariant forall k :: i <= k < |raw| ==> raw[k].data.closes == 0
    {
      assert raw[i].data in RawData(raw);
      var h := Deliver(raw[i].data, w.wrapFailsAt != Some(i), UploadOf(w, i));
      if h == null {
        assert !Succeeds(w, i);
        Abandon(raw, i, s3Data);
        return Err;
      }
      paths := paths + [SliceResult(h.s3path.value, raw[i].startTime, raw[i].endTime)];
      s3Data := s3Data + [h];
    }
    r := Ok(JobResult(paths, s3Data));
  }

  /** The failure path at slice i: the later pieces' data, then the earlier pieces' handles. */
  method Abandon(raw: seq<RawSlice>, i: nat, s3Data: seq<Handle>)
    requires i < |raw| && |s3Data| == i
    requires forall k, j :: 0 <= k < j < |raw| ==> raw[k].data != raw[j].data
    requires forall k :: 0 <= k < i ==> OpenOutput(s3Data[k], raw[k].data)
    requires raw[i].data.closes == 1
    requires forall k :: i < k < |raw| ==> raw[k].data.closes == 0
    modifies RawData(raw), HandlesIn(s3Data)
    ensures forall k :: 0 <= k < |raw| ==> raw[k].data.closes == 1
    ensures forall k :: 0 <= k < i ==> s3Data[k].closed && s3Data[k].deletions == 1
  {
    ghost var all := HandlesIn(s3Data);
    OutputsAreBooked(raw, i, s3Data);
    var rest := raw[i + 1..];
    assert forall k :: i < k < |raw| ==> rest[k - (i + 1)] == raw[k];
    assert DataOf(all) !! RawData(rest);
    CloseRaw(rest);
    assert AllAccounted(all);
    CloseAll(s3Data, all);
    assert forall k :: 0 <= k < i ==> s3Data[k] in all;
  }

  lemma OutputsAreBooked(raw: seq<RawSlice>, i: nat, s3Data: seq<Handle>)
    requires i <= |raw| && |s3Data| == i
    requires forall k, j :: 0 <= k < j < |raw| ==> raw[k].data != raw[j].data
    requires forall k :: 0 <= k < i ==> OpenOutput(s3Data[k], raw[k].data)
    ensures AllAccounted(HandlesIn(s3Data))
    ensures DataOf(HandlesIn(s3Data)) == RawData(raw[..i])
  {
    assert forall k :: 0 <= k < i ==> s3Data[k] in HandlesIn(s3Data) && raw[..i][k].data in RawData(raw[..i]);
  }

  datatype Action = ExtractThumbnail | ConvertToMp4 | SliceVideo | Unknown

  /**
   runAction: the input is wrapped as somebody else's object and only its local copy is released. pieces is what ffmpeg
   produced, None if it failed; thumbnail and conversion produce one piece.
   */
  method RunAction(action: Action, inputPath: Path, fetched: Data?, pieces: Option<seq<RawSlice>>, w: ActionWorld)
    returns (r: Result<JobResult>, input: Handle)
    requires pieces.Some? && action != SliceVideo ==> |pieces.value| == 1
    requires pieces.Some? ==> forall i :: 0 <= i < |pieces.value| ==>
               pieces.value[i].data.closes == 0 && pieces.value[i].data != fetched
    requires pieces.Some? ==> forall i, j :: 0 <= i < j < |pieces.value| ==>
               pieces.value[i].data != pieces.value[j].data
    modifies fetched, if pieces.Some? then RawData(pieces.value) else {}
    ensures fresh(input) && input.closed && input.deletions == 0 && input.uploads == 0
            && input.s3path == Some(inputPath)
    ensures r.Ok? ==>
              && pieces.Some? && action != Unknown && |r.value.s3Data| == |pieces.value|
              && forall i :: 0 <= i < |pieces.value| ==> OpenOutput(r.value.s3Data[i], pieces.value[i].data)
    ensures r.Err? && pieces.Some? && action != Unknown ==>
              forall i :: 0 <= i < |pieces.value| ==> pieces.value[i].data.closes == 1
    ensures r.Ok? <==> action != Unknown && pieces.Some? && forall i :: 0 <= i < |pieces.value| ==> Succeeds(w, i)
  {
    input := new Handle.FromPath(Some(inputPath), false);
    if action == Unknown {
      r := Err;
    } else {
      var read := input.Reader(fetched);
      if pieces.None? {
        r := Err;
      } else {
        r := DeliverSlices(pieces.value, w);
      }
    }
    input.Close();
  }
}
