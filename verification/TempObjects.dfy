/**
 Temporary objects as the services own them: local data, lazy S3 handles around it, the pipeline context that holds one
 handle under two names, and the loops that must let go of everything when a step fails.
 */
module TempObjects {
  import opened GoText

  type Path = nat

  /** Local data; closes counts how often it was closed. */
  class Data {
    var closes: nat

    constructor ()
      ensures closes == 0
    {
      closes := 0;
    }

    method Close()
      modifies this
      ensures closes == old(closes) + 1
    {
      closes := closes + 1;
    }
  }

  /** A handle used by one goroutine at a time. deletions counts the objects it removed from the bucket. */
  class Handle {
    var physical: Data?
    var s3path: Option<Path>
    var once: bool
    var closed: bool
    const owned: bool
    var uploads: nat
    var downloads: nat
    var deletions: nat

    /** Nothing was transferred or deleted yet. */
    ghost predicate New()
      reads this
    {
      !once && !closed && uploads == 0 && downloads == 0 && deletions == 0
    }

    /** WrapData: the object will be uploaded when its path is first asked for. */
    constructor FromLocal(data: Data)
      ensures New() && physical == data && s3path == None && owned
    {
      physical, s3path, once, closed, owned := data, None, false, false, true;
      uploads, downloads, deletions := 0, 0, 0;
    }

    /** WrapInternalS3Path and WrapExternalS3Path: the latter's object belongs to somebody else and is never deleted. */
    constructor FromPath(path: Option<Path>, owned: bool)
      ensures New() && physical == null && s3path == path && this.owned == owned
    {
      physical, s3path, once, closed := null, path, false, false;
      this.owned := owned;
      uploads, downloads, deletions := 0, 0, 0;
    }

    /**
     The path, uploading the data on first use; a failed upload is not retried. A handle without data has no upload
     function.
     */
    method GetS3Path(made: Option<Path>) returns (r: Option<Path>)
      requires s3path.Some? || once || physical != null
      modifies this
      ensures physical == old(physical) && closed == old(closed) && downloads == old(downloads)
              && deletions == old(deletions)
      ensures r == s3path
      ensures old(s3path).Some? || old(once) ==> s3path == old(s3path) && once == old(once) && uploads == old(uploads)
      ensures old(s3path).None? && !old(once) ==> s3path == made && once && uploads == old(uploads) + 1
    {
      if s3path == None {
        if !once {
          once := true;
          uploads := uploads + 1;
          s3path := made;
        }
      }
      r := s3path;
    }

    /** The bytes, downloading them on first use; a failed download is not retried. */
    method Reader(fetched: Data?) returns (ok: bool)
      requires physical != null || once || s3path.Some?
      modifies this
      ensures s3path == old(s3path) && closed == old(closed) && uploads == old(uploads) && deletions == old(deletions)
      ensures ok <==> physical != null
      ensures old(physical) != null || old(once) ==>
                physical == old(physical) && once == old(once) && downloads == old(downloads)
      ensures old(physical) == null && !old(once) ==> physical == fetched && once && downloads == old(downloads) + 1
    {
      if physical == null {
        if !once {
          once := true;
          downloads := downloads + 1;
          physical := fetched;
        }
      }
      ok := physical != null;
    }

    /** Closing twice is closing once. */
    method Close()
      modifies this, physical
      ensures closed && deletions == old(deletions) + Deleting(!old(closed), old(s3path), owned)
      ensures physical == old(physical) && s3path == old(s3path) && once == old(once)
      ensures uploads == old(uploads) && downloads == old(downloads)
      ensures physical != null ==> physical.closes == old(physical.closes) + (if old(closed) then 0 else 1)
    {
      if closed {
        return;
      }
      if s3path.Some? && owned {
        deletions := deletions + 1;
      }
      if physical != null {
        physical.Close();
      }
      closed := true;
    }
  }

  /** Whether a close that takes effect deletes an object. */
  function Deleting(effective: bool, path: Option<Path>, owned: bool): nat {
    if effective && path.Some? && owned then 1 else 0
  }

  /** No two handles share their local data. */
  ghost predicate Separate(hs: set<Handle>)
    reads hs
  {
    forall h, g :: h in hs && g in hs && h.physical != null && h.physical == g.physical ==> h == g
  }

  ghost function DataOf(hs: set<Handle>): set<Data>
    reads hs
  {
    set h | h in hs && h.physical != null :: h.physical
  }

  ghost function HandlesIn(hs: seq<Handle>): set<Handle> {
    set h | h in hs
  }

  /**
   The books of a handle: its object is deleted once the handle is closed, if there is an object and the handle owns it,
   and its data is closed with it; neither ever happens twice.
   */
  ghost predicate Accounted(h: Handle)
    reads h, h.physical
  {
    && h.deletions == Deleting(h.closed, h.s3path, h.owned)
    && (h.physical != null ==> h.physical.closes == if h.closed then 1 else 0)
  }

  ghost predicate AllAccounted(hs: set<Handle>)
    reads hs, DataOf(hs)
  {
    Separate(hs) && forall h :: h in hs ==> Accounted(h)
  }

  /** Handles that are open, owned, and wrap data of their own. */
  ghost predicate AllOpen(hs: set<Handle>)
    reads hs, DataOf(hs)
  {
    AllAccounted(hs) && forall h :: h in hs ==> !h.closed && h.owned && h.physical != null
  }

  lemma OneMoreOpen(hs: set<Handle>, g: Handle)
    requires AllOpen(hs) && !g.closed && g.owned && g.physical != null && Accounted(g)
    requires g.physical !in DataOf(hs)
    ensures AllOpen(hs + {g}) && DataOf(hs + {g}) == DataOf(hs) + {g.physical}
  {
  }

  twostate predicate Kept(h: Handle)
    reads h
  {
    && h.physical == old(h.physical) && h.s3path == old(h.s3path) && h.once == old(h.once)
    && h.uploads == old(h.uploads) && h.downloads == old(h.downloads)
  }

  /** QuietCloseAll: every handle of the list, however often it occurs; the books of all handles stay in order. */
  method CloseAll(list: seq<Handle>, ghost all: set<Handle>)
    requires HandlesIn(list) <= all && AllAccounted(all)
    modifies all, DataOf(all)
    ensures AllAccounted(all) && DataOf(all) == old(DataOf(all))
    ensures forall h :: h in all ==> Kept(h) && h.closed == (old(h.closed) || h in list)
  {
    for i := 0 to |list|
      invariant AllAccounted(all)
      invariant forall h :: h in all ==> Kept(h) && h.closed == (old(h.closed) || h in list[..i])
    {
      assert list[i] in HandlesIn(list);
      list[i].Close();
      assert list[..i + 1] == list[..i] + [list[i]];
    }
    assert list[..|list|] == list;
  }

  // ---------------------------------------------------------------- the pipeline context

  datatype VideoSlice = VideoSlice(number: nat, startTime: int, endTime: int, slice: Handle)

  /** A slice as the slicer returns it. */
  datatype RawSlice = RawSlice(data: Data, startTime: int, endTime: int)

  function SliceHandles(slices: seq<VideoSlice>): (r: seq<Handle>)
    ensures |r| == |slices| && forall i :: 0 <= i < |slices| ==> r[i] == slices[i].slice
  {
    seq(|slices|, i requires 0 <= i < |slices| => slices[i].slice)
  }

  lemma HandlesInAppend(hs: seq<Handle>, g: Handle)
    ensures HandlesIn(hs + [g]) == HandlesIn(hs) + {g}
  {
    assert (hs + [g])[|hs|] == g;
  }

  lemma SliceHandlesAppend(slices: seq<VideoSlice>, v: VideoSlice)
    ensures SliceHandles(slices + [v]) == SliceHandles(slices) + [v.slice]
  {
  }

  function Optional(h: Handle?): seq<Handle> {
    if h == null then [] else [h]
  }

  lemma OptionalHandles(h: Handle)
    ensures HandlesIn(Optional(h)) == {h} && HandlesIn(Optional(null)) == {}
  {
  }

  /**
   What the steps of an extraction leave behind. Original and thumbnail are held twice: under their name and as
   artifacts.
   */
  class PipelineContext {
    var imageOriginalJpeg: Handle?
    var videoMp4: Handle?
    var imageThumbnail: Handle?
    var videoSlices: seq<VideoSlice>
    var storageArtifacts: seq<Handle>
    ghost var held: set<Handle>

    /** held is every handle reachable under some name. */
    ghost predicate Valid()
      reads this
    {
      held == HandlesIn(Optional(imageOriginalJpeg)) + HandlesIn(Optional(imageThumbnail))
        + HandlesIn(Optional(videoMp4))
              + HandlesIn(SliceHandles(videoSlices)) + HandlesIn(storageArtifacts)
    }

    constructor ()
      ensures Valid() && held == {} && videoSlices == [] && storageArtifacts == []
      ensures imageOriginalJpeg == null && videoMp4 == null && imageThumbnail == null
    {
      imageOriginalJpeg, videoMp4, imageThumbnail := null, null, null;
      videoSlices, storageArtifacts, held := [], [], {};
    }

    /** Each handle is closed, and its object deleted, exactly once, although some are reached twice. */
    method Close()
      requires Valid() && AllAccounted(held)
      modifies held, DataOf(held)
      ensures AllAccounted(held)
      ensures forall h :: h in held ==> h.closed && Kept(h)
    {
      hide AllAccounted, DataOf;
      assert HandlesIn(Optional(imageOriginalJpeg)) <= held && HandlesIn(Optional(imageThumbnail)) <= held
             && HandlesIn(Optional(videoMp4)) <= held && HandlesIn(SliceHandles(videoSlices)) <= held
             && HandlesIn(storageArtifacts) <= held;
      CloseAll(Optional(imageOriginalJpeg), held);
      CloseAll(Optional(imageThumbnail), held);
      CloseAll(Optional(videoMp4), held);
      CloseAll(SliceHandles(videoSlices), held);
      CloseAll(storageArtifacts, held);
    }

    /** Everything held is open, owned, and wraps data of its own. */
    ghost predicate Open()
      reads this, held, DataOf(held)
    {
      Valid() && AllOpen(held)
    }

    /** EncodeOriginal keeps its result under a name and, again, as an artifact. */
    method AddOriginal(data: Data, image: bool)
      requires Open() && data !in DataOf(held) && data.closes == 0
      requires imageOriginalJpeg == null && videoMp4 == null
      modifies this
      ensures Open() && DataOf(held) == old(DataOf(held)) + {data}
      ensures old(held) <= held && fresh(held - old(held))
      ensures imageThumbnail == old(imageThumbnail) && videoSlices == old(videoSlices)
    {
      hide HandlesIn, SliceHandles, Optional, AllOpen;
      var encoded := new Handle.FromLocal(data);
      OneMoreOpen(held, encoded);
      HandlesInAppend(storageArtifacts, encoded);
      OptionalHandles(encoded);
      if image {
        imageOriginalJpeg := encoded;
      } else {
        videoMp4 := encoded;
      }
      storageArtifacts := storageArtifacts + [encoded];
      held := held + {encoded};
    }

    method AddThumbnail(data: Data)
      requires Open() && data !in DataOf(held) && data.closes == 0
      requires imageThumbnail == null
      modifies this
      ensures Open() && DataOf(held) == old(DataOf(held)) + {data}
      ensures old(held) <= held && fresh(held - old(held))
    {
      hide HandlesIn, SliceHandles, Optional, AllOpen;
      var thumb := new Handle.FromLocal(data);
      OneMoreOpen(held, thumb);
      HandlesInAppend(storageArtifacts, thumb);
      OptionalHandles(thumb);
      imageThumbnail := thumb;
      storageArtifacts := storageArtifacts + [thumb];
      held := held + {thumb};
    }

    method AddSlice(number: nat, raw: RawSlice)
      requires Open() && raw.data !in DataOf(held) && raw.data.closes == 0
      modifies this
      ensures Open() && DataOf(held) == old(DataOf(held)) + {raw.data}
      ensures old(held) <= held && fresh(held - old(held))
      ensures |videoSlices| == |old(videoSlices)| + 1 && videoSlices[..|old(videoSlices)|] == old(videoSlices)
      ensures var v := videoSlices[|old(videoSlices)|]; Wraps(v, number, raw) && v.slice in held
      ensures imageThumbnail == old(imageThumbnail)
    {
      hide HandlesIn, SliceHandles, Optional, AllOpen;
      var wrapped := new Handle.FromLocal(raw.data);
      OneMoreOpen(held, wrapped);
      HandlesInAppend(SliceHandles(videoSlices), wrapped);
      SliceHandlesAppend(videoSlices, VideoSlice(number, raw.startTime, raw.endTime, wrapped));
      videoSlices := videoSlices + [VideoSlice(number, raw.startTime, raw.endTime, wrapped)];
      held := held + {wrapped};
    }

    /** The loop of VidSlice up to the slice whose wrapping fails: numbers and wraps the slices in order. */
    method WrapSlices(raw: seq<RawSlice>, wrapFailsAt: Option<nat>) returns (n: nat)
      requires Open() && videoSlices == []
      requires forall i :: 0 <= i < |raw| ==> raw[i].data !in DataOf(held) && raw[i].data.closes == 0
      requires forall i, j :: 0 <= i < j < |raw| ==> raw[i].data != raw[j].data
      modifies this
      ensures Open() && n == |videoSlices|
      ensures n == if wrapFailsAt.Some? && wrapFailsAt.value < |raw| then wrapFailsAt.value else |raw|
      ensures forall i :: 0 <= i < n ==> Wraps(videoSlices[i], i, raw[i]) && videoSlices[i].slice in held
      ensures forall i :: n <= i < |raw| ==> raw[i].data !in DataOf(held)
      ensures old(held) <= held && fresh(held - old(held))
      ensures DataOf(held) <= old(DataOf(held)) + RawData(raw)
      ensures imageThumbnail == old(imageThumbnail)
    {
      hide AllOpen, HandlesIn, SliceHandles, Optional, DataOf, Valid;
      n := 0;
      while n < |raw| && wrapFailsAt != Some(n)
        invariant n <= |raw| && |videoSlices| == n && Open()
        invariant wrapFailsAt.None? || n <= wrapFailsAt.value || wrapFailsAt.value >= |raw|
        invariant forall k :: 0 <= k < n ==> Wraps(videoSlices[k], k, raw[k]) && videoSlices[k].slice in held
        invariant forall k :: n <= k < |raw| ==> raw[k].data !in DataOf(held)
        invariant old(held) <= held && fresh(held - old(held))
        invariant DataOf(held) <= old(DataOf(held)) + RawData(raw)
        invariant imageThumbnail == old(imageThumbnail)
      {
        assert raw[n].data in RawData(raw);
        ghost var earlier := videoSlices;
        AddSlice(n, raw[n]);
        assert forall k :: 0 <= k < n ==> videoSlices[..n][k] == earlier[k];
        n := n + 1;
      }
    }

    /**
     VidSlice. If wrapping fails at some slice, the data of that slice and of all later ones is closed; the earlier ones
     are held and will be closed with the context.
     */
    method SliceVideo(raw: seq<RawSlice>, wrapFailsAt: Option<nat>) returns (ok: bool)
      requires Open() && videoSlices == []
      requires forall i :: 0 <= i < |raw| ==> raw[i].data !in DataOf(held) && raw[i].data.closes == 0
      requires forall i, j :: 0 <= i < j < |raw| ==> raw[i].data != raw[j].data
      modifies this, RawData(raw)
      ensures Open()
      ensures ok <==> wrapFailsAt.None? || wrapFailsAt.value >= |raw|
      ensures |videoSlices| == if ok then |raw| else wrapFailsAt.value
      ensures forall i :: 0 <= i < |videoSlices| ==> Wraps(videoSlices[i], i, raw[i]) && videoSlices[i].slice in held
      ensures forall i :: |videoSlices| <= i < |raw| ==> raw[i].data.closes == 1 && raw[i].data !in DataOf(held)
      ensures DataOf(held) <= old(DataOf(held)) + RawData(raw)
      ensures imageThumbnail == old(imageThumbnail)
      ensures old(held) <= held && fresh(held - old(held))
    {
      hide HandlesIn, SliceHandles, Optional, AllOpen, Valid;
      var n := WrapSlices(raw, wrapFailsAt);
      ok := n == |raw|;
      if !ok {
        var rest := raw[n..];
        assert forall k :: n <= k < |raw| ==> rest[k - n] == raw[k];
        assert DataOf(held) !! RawData(rest);
        CloseRaw(rest);
      }
    }
  }

  predicate Wraps(v: VideoSlice, number: nat, raw: RawSlice)
    reads v.slice
  {
    v.number == number && v.startTime == raw.startTime && v.endTime == raw.endTime && v.slice.physical == raw.data
  }

  ghost function RawData(raw: seq<RawSlice>): set<Data> {
    set i | 0 <= i < |raw| :: raw[i].data
  }

  /** Closes the data of the slices that will not be wrapped. */
  method CloseRaw(rest: seq<RawSlice>)
    requires forall i, j :: 0 <= i < j < |rest| ==> rest[i].data != rest[j].data
    modifies RawData(rest)
    ensures forall i :: 0 <= i < |rest| ==> rest[i].data.closes == old(rest[i].data.closes) + 1
  {
    for k := 0 to |rest|
      invariant forall i :: 0 <= i < |rest| ==>
                  rest[i].data.closes == old(rest[i].data.closes) + (if i < k then 1 else 0)
    {
      rest[k].data.Close();
    }
  }

  /** How the steps of an extraction that deal in temporary objects turn out; paths are the uploads its models need. */
  datatype Plan = Plan(encodes: bool, wrapFailsAt: Option<nat>, paths: seq<Option<Path>>, modelFails: bool,
                       thumbnails: bool)

  /** The models read handles by path, which uploads them; the context stays open. */
  method UploadSlices(ctx: PipelineContext, paths: seq<Option<Path>>)
    requires ctx.Open() && forall i :: 0 <= i < |ctx.videoSlices| ==> ctx.videoSlices[i].slice in ctx.held
    modifies ctx.held
    ensures ctx.Open() && DataOf(ctx.held) == old(DataOf(ctx.held))
    ensures forall h :: h in ctx.held ==> h.physical == old(h.physical)
  {
    hide HandlesIn, SliceHandles, Optional, PipelineContext.Valid;
    for i := 0 to |ctx.videoSlices|
      invariant ctx.Open()
      invariant forall h :: h in ctx.held ==> h.physical == old(h.physical)
    {
      var path := ctx.videoSlices[i].slice.GetS3Path(if i < |paths| then paths[i] else None);
    }
  }

  lemma ClosedWithHandles(hs: set<Handle>)
    requires AllAccounted(hs) && forall h :: h in hs ==> h.closed
    ensures forall d :: d in DataOf(hs) ==> d.closes == 1
  {
  }

  /** The steps up to slicing. */
  method EncodeAndSlice(ctx: PipelineContext, image: bool, original: Data, raw: seq<RawSlice>, wrapFailsAt: Option<nat>)
    returns (ok: bool)
    requires ctx.Open() && ctx.held == {} && ctx.videoSlices == []
    requires ctx.imageOriginalJpeg == null && ctx.videoMp4 == null
    requires original.closes == 0 && forall i :: 0 <= i < |raw| ==> raw[i].data != original && raw[i].data.closes == 0
    requires forall i, j :: 0 <= i < j < |raw| ==> raw[i].data != raw[j].data
    modifies ctx, RawData(raw)
    ensures ctx.Open() && fresh(ctx.held) && ctx.imageThumbnail == old(ctx.imageThumbnail)
    ensures ok <==> image || wrapFailsAt.None? || wrapFailsAt.value >= |raw|
    ensures original in DataOf(ctx.held) && DataOf(ctx.held) <= {original} + RawData(raw)
    ensures forall i :: 0 <= i < |ctx.videoSlices| ==> ctx.videoSlices[i].slice in ctx.held
    ensures !image ==> forall i :: 0 <= i < |raw| ==>
              raw[i].data in DataOf(ctx.held) || raw[i].data.closes == 1
  {
    hide HandlesIn, SliceHandles, Optional, PipelineContext.Valid, AllOpen;
    ctx.AddOriginal(original, image);
    ok := true;
    if !image {
      ghost var encoded: Handle :| encoded in ctx.held && encoded.physical == original;
      ok := ctx.SliceVideo(raw, wrapFailsAt);
      assert encoded in ctx.held;
      forall i | 0 <= i < |raw|
        ensures raw[i].data in DataOf(ctx.held) || raw[i].data.closes == 1
      {
        if i < |ctx.videoSlices| {
          assert Wraps(ctx.videoSlices[i], i, raw[i]);
        }
      }
    }
  }

  /**
   Extract, as far as temporary objects go: whichever step fails, the context is closed and with it every object and
   every piece of local data made so far, each exactly once; after success everything is still open.
   */
  method Extract(image: bool, original: Data, raw: seq<RawSlice>, thumb: Data, plan: Plan)
    returns (ok: bool, ctx: PipelineContext)
    requires original != thumb && original.closes == 0 && thumb.closes == 0
    requires forall i :: 0 <= i < |raw| ==> raw[i].data != original && raw[i].data != thumb && raw[i].data.closes == 0
    requires forall i, j :: 0 <= i < j < |raw| ==> raw[i].data != raw[j].data
    modifies original, thumb, RawData(raw)
    ensures fresh(ctx)
    ensures ok ==> ctx.Open()
    ensures ok <==> plan.encodes && (image || plan.wrapFailsAt.None? || plan.wrapFailsAt.value >= |raw|)
                    && !plan.modelFails && plan.thumbnails
    ensures !ok ==> AllAccounted(ctx.held) && forall h :: h in ctx.held ==> h.closed
    ensures !ok && plan.encodes ==> original.closes == 1
    ensures !ok && plan.encodes && !image ==> forall i :: 0 <= i < |raw| ==> raw[i].data.closes == 1
  {
    hide HandlesIn, SliceHandles, Optional, PipelineContext.Valid;
    assert thumb !in {original} + RawData(raw);
    ctx := new PipelineContext();
    ok := false;
    if plan.encodes {
      ok := EncodeAndSlice(ctx, image, original, raw, plan.wrapFailsAt);
      if ok {
        UploadSlices(ctx, plan.paths);
        ok := !plan.modelFails && plan.thumbnails;
        if ok {
          ctx.AddThumbnail(thumb);
        }
      }
    }
    if !ok {
      ghost var given := DataOf(ctx.held);
      ctx.Close();
      assert DataOf(ctx.held) == given;
      ClosedWithHandles(ctx.held);
    }
  }
}
