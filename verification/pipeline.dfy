/** The photo view model as an immutable state plus pure transitions: loading
    from the store, saving a record, and the sequential steps of processing a
    picked picture (start, background analysis, main-queue completion).  The
    background/main-queue hand-off is flattened into one sequence of steps. */
module Pipeline {
  import opened Wrappers
  import opened Orientations
  import opened Records
  import Names
  import Sequences

  /** The model context: every object inserted so far, and the objects a
      successful `save()` has made durable. */
  datatype Context = Context(objects: seq<StoredImage>, committed: seq<StoredImage>)

  /** The published state of the view model, plus its private name counters. */
  datatype ViewModel = ViewModel(
    processedImages: seq<ProcessedImage>,
    allImages: seq<ProcessedImage>,
    selectedImage: Option<Image>,
    isProcessing: bool,
    tempName: string,
    tempFaceDetected: bool,
    showingDetail: bool,
    nameCount: Names.Counters
  )

  /** The state of a freshly created view model: empty lists, nothing
      selected, no progress or detail view, and every word's counter at its
      default of 0. */
  function Initial(): (vm: ViewModel)
    ensures vm.processedImages == [] && vm.allImages == [] && vm.selectedImage.None?
    ensures !vm.isProcessing && !vm.showingDetail
    ensures vm.tempName == "" && !vm.tempFaceDetected
    ensures forall w :: Names.CountOf(vm.nameCount, w) == 0
  {
    ViewModel([], [], None, false, "", false, false, map[])
  }

  // ---------------------------------------------------------------------------
  // Loading and saving

  /** The records of a fetch that survive decoding, in fetch order. */
  function DecodeAll(items: seq<StoredImage>, platform: Platform): (r: seq<ProcessedImage>)
    ensures |r| <= |items|
    ensures forall k :: 0 <= k < |r| ==>
              exists i :: 0 <= i < |items| && Revive(items[i], platform) == Some(r[k])
  {
    Sequences.CompactMap(items, Reviver(platform))
  }

  /** `loadFromStorage`: `fetched` is the fetch result, `None` when the fetch
      throws.  A failed fetch leaves the state alone; otherwise both lists
      become the decodable records and nothing else changes. */
  function Load(vm: ViewModel, fetched: Option<seq<StoredImage>>, platform: Platform): (vm': ViewModel)
    ensures fetched.None? ==> vm' == vm
    ensures fetched.Some? ==>
              && vm'.allImages == vm'.processedImages
              && |vm'.allImages| <= |fetched.value|
              && vm' == vm.(allImages := vm'.allImages, processedImages := vm'.allImages)
    ensures fetched.Some? ==>
              forall k :: 0 <= k < |vm'.allImages| ==>
                exists i :: 0 <= i < |fetched.value| && Revive(fetched.value[i], platform) == Some(vm'.allImages[k])
  {
    match fetched
    case None => vm
    case Some(items) =>
      var mapped := DecodeAll(items, platform);
      vm.(allImages := mapped, processedImages := mapped)
  }

  /** A load keeps exactly the stored records whose bytes decode, in fetch
      order: position `k` of the result is the `k`-th decodable record. */
  lemma LoadKeepsDecodable(vm: ViewModel, items: seq<StoredImage>, platform: Platform)
    ensures var loaded := Load(vm, Some(items), platform).allImages;
            var decodable := Sequences.Filter(items, Sequences.Succeeds(Reviver(platform)));
            && |loaded| == |decodable|
            && forall k :: 0 <= k < |loaded| ==> Some(loaded[k]) == Revive(decodable[k], platform)
  {
    Sequences.CompactMapIsFilterThenMap(items, Reviver(platform));
  }

  /** When every stored picture decodes, nothing is dropped and each record
      keeps its stored name, face flag and orientation tag. */
  lemma LoadAllDecodable(vm: ViewModel, items: seq<StoredImage>, platform: Platform)
    requires forall i :: 0 <= i < |items| ==> platform.decodeImage(items[i].imageData).Some?
    ensures var loaded := Load(vm, Some(items), platform).allImages;
            && |loaded| == |items|
            && forall k :: 0 <= k < |items| ==>
                 && loaded[k].name == items[k].name
                 && loaded[k].containsFace == items[k].containsFace
                 && loaded[k].orientation == DecodeTag(items[k].orientation)
  {
    Sequences.FilterKeepsAll(items, Sequences.Succeeds(Reviver(platform)));
    LoadKeepsDecodable(vm, items, platform);
  }

  /** `saveToStorage`: when the picture cannot be compressed nothing is
      inserted; otherwise exactly one stored record is appended, carrying the
      record's name, face flag and orientation tag.  A failed commit is only
      logged, so it changes nothing beyond the durable part of the store. */
  function Save(ctx: Context, p: ProcessedImage, platform: Platform, commitOk: bool): (ctx': Context)
    ensures platform.jpegEncode(p.image).None? ==> ctx' == ctx
    ensures platform.jpegEncode(p.image).Some? ==>
              && |ctx'.objects| == |ctx.objects| + 1
              && ctx'.objects[..|ctx.objects|] == ctx.objects
              && var s := ctx'.objects[|ctx.objects|];
                 && s.name == p.name
                 && s.containsFace == p.containsFace
                 && DecodeTag(s.orientation) == p.orientation
                 && s.orientation == EncodeTag(p.orientation)
    ensures platform.jpegEncode(p.image).Some? ==>
              ctx'.committed == (if commitOk then ctx'.objects else ctx.committed)
  {
    match ToStored(p, platform)
    case None => ctx
    case Some(stored) =>
      var objects := ctx.objects + [stored];
      Context(objects, if commitOk then objects else ctx.committed)
  }

  /** Loading what a save inserted gives back the saved record's name, face
      flag and orientation, with the decoder's copy of the picture. */
  lemma SaveThenLoad(vm: ViewModel, ctx: Context, p: ProcessedImage, platform: Platform, commitOk: bool)
    requires platform.jpegEncode(p.image).Some?
    requires platform.decodeImage(platform.jpegEncode(p.image).value).Some?
    ensures var objects := Save(ctx, p, platform, commitOk).objects;
            var loaded := Load(vm, Some(objects), platform).allImages;
            && |loaded| > 0
            && loaded[|loaded| - 1]
               == p.(image := platform.decodeImage(platform.jpegEncode(p.image).value).value)
  {
    var f := Reviver(platform);
    var stored := ToStored(p, platform).value;
    StoreReviveRoundTrip(p, platform);
    Sequences.CompactMapAppend(ctx.objects, [stored], f);
    assert Save(ctx, p, platform, commitOk).objects == ctx.objects + [stored];
    assert Sequences.CompactMap([stored], f) == [f(stored).value] by {
      assert [stored][1..] == [];
    }
  }

  /** What a relaunch sees after a save: the fetch then returns the durable
      objects only.  A failed commit leaves the relaunch state exactly as it
      was before the save; a successful one ends the relaunch list with the
      saved record. */
  lemma RelaunchAfterSave(ctx: Context, p: ProcessedImage, platform: Platform, commitOk: bool)
    ensures !commitOk ==>
              Load(Initial(), Some(Save(ctx, p, platform, commitOk).committed), platform)
              == Load(Initial(), Some(ctx.committed), platform)
    ensures commitOk && platform.jpegEncode(p.image).Some?
            && platform.decodeImage(platform.jpegEncode(p.image).value).Some? ==>
              var loaded := Load(Initial(), Some(Save(ctx, p, platform, commitOk).committed), platform).allImages;
              && |loaded| > 0
              && loaded[|loaded| - 1]
                 == p.(image := platform.decodeImage(platform.jpegEncode(p.image).value).value)
  {
    if commitOk && platform.jpegEncode(p.image).Some?
       && platform.decodeImage(platform.jpegEncode(p.image).value).Some? {
      SaveThenLoad(Initial(), ctx, p, platform, commitOk);
    }
  }

  /** A failed commit leaves the inserted object pending, not lost: the next
      successful save commits it along with its own record. */
  lemma PendingCommittedLater(ctx: Context, p: ProcessedImage, q: ProcessedImage, platform: Platform)
    requires platform.jpegEncode(p.image).Some? && platform.jpegEncode(q.image).Some?
    ensures var ctx' := Save(Save(ctx, p, platform, false), q, platform, true);
            && |ctx'.committed| == |ctx.objects| + 2
            && ctx'.committed[|ctx.objects|] == ToStored(p, platform).value
            && ctx'.committed[|ctx.objects| + 1] == ToStored(q, platform).value
  {
  }

  // ---------------------------------------------------------------------------
  // Processing one picture

  /** `detectFace`: fail-open, so a picture the request cannot handle counts
      as having no face. */
  function DetectFace(image: Image, platform: Platform): (found: bool)
    ensures found <==> exists n :: platform.faceCount(image) == Some(n) && n > 0
  {
    match platform.faceCount(image)
    case None => false
    case Some(n) => n > 0
  }

  /** What the background step computes for a picture. */
  datatype Analysis = Analysis(faceDetected: bool, name: string, orientation: Orientation)

  /** Start of `processImage`: show progress and remember the picture. */
  function Begin(vm: ViewModel, image: Image): (vm': ViewModel)
    ensures vm'.isProcessing && vm'.selectedImage == Some(image)
    ensures && vm'.processedImages == vm.processedImages && vm'.allImages == vm.allImages
            && vm'.tempName == vm.tempName && vm'.tempFaceDetected == vm.tempFaceDetected
            && vm'.showingDetail == vm.showingDetail && vm'.nameCount == vm.nameCount
  {
    vm.(isProcessing := true, selectedImage := Some(image))
  }

  /** The background block of `processImage`: detect faces, draw a name
      (which advances the name counters) and classify the size.  `pick` is
      the index of the randomly chosen pool word. */
  function Analyse(vm: ViewModel, image: Image, pick: nat, platform: Platform): (r: (Analysis, ViewModel))
    requires pick < |Names.NamePool|
    ensures r.0.faceDetected <==> exists n :: platform.faceCount(image) == Some(n) && n > 0
    ensures r.0.orientation == Landscape <==> image.width > image.height
    ensures r.0.orientation == Portrait <==> image.width < image.height
    ensures var word := Names.NamePool[pick];
            && word in r.1.nameCount
            && r.1.nameCount[word] == Names.CountOf(vm.nameCount, word) + 1
            && r.0.name == Names.Render(word, r.1.nameCount[word])
            && (forall w :: w in r.1.nameCount <==> w in vm.nameCount || w == word)
            && (forall w :: w in vm.nameCount && w != word ==> r.1.nameCount[w] == vm.nameCount[w])
    ensures r.1 == vm.(nameCount := r.1.nameCount)
  {
    var generated := Names.GenerateName(vm.nameCount, pick);
    (Analysis(DetectFace(image, platform), generated.0, Classify(image.width, image.height)),
     vm.(nameCount := generated.1))
  }

  /** The main-queue block of `processImage`: append the new record to the
      displayed list (and only to it), publish its name and face flag, stop
      the progress indicator, open the detail view, then save. */
  function Complete(vm: ViewModel, ctx: Context, image: Image, a: Analysis, platform: Platform, commitOk: bool)
    : (r: (ViewModel, Context))
    ensures |r.0.processedImages| == |vm.processedImages| + 1
    ensures r.0.processedImages[..|vm.processedImages|] == vm.processedImages
    ensures var added := r.0.processedImages[|vm.processedImages|];
            && added.image == image
            && added.name == a.name
            && added.containsFace == a.faceDetected
            && added.orientation == a.orientation
            && r.1 == Save(ctx, added, platform, commitOk)
    ensures r.0.allImages == vm.allImages
    ensures r.0.tempName == a.name && r.0.tempFaceDetected == a.faceDetected
    ensures !r.0.isProcessing && r.0.showingDetail
    ensures r.0.selectedImage == vm.selectedImage && r.0.nameCount == vm.nameCount
  {
    var processed := ProcessedImage(image, a.name, a.faceDetected, a.orientation);
    var vm' := vm.(processedImages := vm.processedImages + [processed],
                   tempName := a.name,
                   tempFaceDetected := a.faceDetected,
                   isProcessing := false,
                   showingDetail := true);
    (vm', Save(ctx, processed, platform, commitOk))
  }

  /** Whether the save succeeds or fails, the published state after the
      completion step is the same: persistence failures are not surfaced. */
  lemma CompletionIgnoresPersistence(vm: ViewModel, ctx: Context, image: Image, a: Analysis,
                                     platform: Platform, platform': Platform, commitOk: bool, commitOk': bool)
    ensures Complete(vm, ctx, image, a, platform, commitOk).0
            == Complete(vm, ctx, image, a, platform', commitOk').0
  {
  }

  /** `processImage` run to completion, one step after another. */
  function Process(vm: ViewModel, ctx: Context, image: Image, pick: nat, platform: Platform, commitOk: bool)
    : (r: (ViewModel, Context))
    requires pick < |Names.NamePool|
    ensures var generated := Names.GenerateName(vm.nameCount, pick);
            && |r.0.processedImages| == |vm.processedImages| + 1
            && r.0.processedImages[..|vm.processedImages|] == vm.processedImages
            && r.0.processedImages[|vm.processedImages|]
               == ProcessedImage(image, generated.0, DetectFace(image, platform), Classify(image.width, image.height))
            && r.0.tempName == generated.0
            && r.0.nameCount == generated.1
    ensures r.0.allImages == vm.allImages
    ensures r.0.selectedImage == Some(image)
    ensures !r.0.isProcessing && r.0.showingDetail
    ensures r.0.tempFaceDetected == DetectFace(image, platform)
    ensures r.1 == Save(ctx, r.0.processedImages[|vm.processedImages|], platform, commitOk)
  {
    var started := Begin(vm, image);
    var analysed := Analyse(started, image, pick, platform);
    Complete(analysed.1, ctx, image, analysed.0, platform, commitOk)
  }

  /** Processing a run of pictures: one pick per picture. */
  function ProcessAll(vm: ViewModel, ctx: Context, images: seq<Image>, picks: seq<nat>, platform: Platform)
    : (r: (ViewModel, Context))
    requires |picks| == |images| && Names.ValidPicks(picks)
    ensures |r.0.processedImages| == |vm.processedImages| + |images|
    ensures r.0.processedImages[..|vm.processedImages|] == vm.processedImages
    ensures r.0.nameCount == Names.GenerateRun(vm.nameCount, picks).1
    ensures forall k :: 0 <= k < |images| ==>
              r.0.processedImages[|vm.processedImages| + k].name == Names.GenerateRun(vm.nameCount, picks).0[k]
    decreases |images|
  {
    if |images| == 0 then (vm, ctx)
    else
      var first := Process(vm, ctx, images[0], picks[0], platform, true);
      var rest := ProcessAll(first.0, first.1, images[1..], picks[1..], platform);
      assert rest.0.processedImages[..|vm.processedImages|] == vm.processedImages by {
        assert rest.0.processedImages[..|first.0.processedImages|] == first.0.processedImages;
        assert first.0.processedImages[..|vm.processedImages|] == vm.processedImages;
      }
      assert forall k :: 0 <= k < |images| ==>
               rest.0.processedImages[|vm.processedImages| + k].name == Names.GenerateRun(vm.nameCount, picks).0[k] by {
        forall k | 0 <= k < |images|
          ensures rest.0.processedImages[|vm.processedImages| + k].name == Names.GenerateRun(vm.nameCount, picks).0[k]
        {
          if k > 0 {
            assert Names.GenerateRun(vm.nameCount, picks).0[k]
                   == Names.GenerateRun(first.0.nameCount, picks[1..]).0[k - 1];
          } else {
            assert rest.0.processedImages[..|first.0.processedImages|] == first.0.processedImages;
          }
        }
      }
      rest
  }

  /** The records added by a run of processing steps have pairwise distinct
      names, whatever words are drawn. */
  lemma ProcessAllNamesDistinct(vm: ViewModel, ctx: Context, images: seq<Image>, picks: seq<nat>, platform: Platform)
    requires |picks| == |images| && Names.ValidPicks(picks)
    ensures var added := ProcessAll(vm, ctx, images, picks, platform).0.processedImages[|vm.processedImages|..];
            forall i, j :: 0 <= i < j < |added| ==> added[i].name != added[j].name
  {
    Names.RunNamesDistinct(vm.nameCount, picks);
    var added := ProcessAll(vm, ctx, images, picks, platform).0.processedImages[|vm.processedImages|..];
    var names := Names.GenerateRun(vm.nameCount, picks).0;
    forall i, j | 0 <= i < j < |added|
      ensures added[i].name != added[j].name
    {
      assert added[i].name == names[i] && added[j].name == names[j];
    }
  }
}
