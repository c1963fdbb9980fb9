/** The logic inside the main screen: the search field's filter, the tap on a
    grid cell, the export button's lookup, the picker hand-off and the cell
    height table. */
module Gallery {
  import opened Wrappers
  import opened Text
  import opened Orientations
  import opened Records
  import opened Pipeline
  import Names
  import Sequences

  // ---------------------------------------------------------------------------
  // Search

  /** A record matches a query when its lowered name contains the lowered
      query. */
  predicate Matches(p: ProcessedImage, query: string)
  {
    Contains(Lower(p.name), Lower(query))
  }

  function MatcherFor(query: string): ProcessedImage -> bool
  {
    (p: ProcessedImage) => Matches(p, query)
  }

  /** What the grid shows for a query: everything for an empty query, else
      the matching records in their original order.  Every shown record
      matches, every matching record is shown as often as it occurs, and the
      relative order is kept. */
  function SearchResults(all: seq<ProcessedImage>, query: string): (r: seq<ProcessedImage>)
    ensures |query| == 0 ==> r == all
    ensures |query| > 0 ==> forall k :: 0 <= k < |r| ==> Matches(r[k], query)
    ensures |query| > 0 ==> forall i :: 0 <= i < |all| && Matches(all[i], query) ==> all[i] in r
    ensures |query| > 0 ==>
              forall i :: 0 <= i < |all| && Matches(all[i], query) ==> multiset(r)[all[i]] == multiset(all)[all[i]]
    ensures multiset(r) <= multiset(all)
    ensures Sequences.IsSubsequence(r, all)
  {
    if |query| == 0 then
      Sequences.FilterKeepsAll(all, MatcherFor(query));
      Sequences.SubsequenceReflexive(all);
      all
    else
      var r := Sequences.Filter(all, MatcherFor(query));
      Sequences.FilterCounts(all, MatcherFor(query));
      Sequences.FilterIsSubsequence(all, MatcherFor(query));
      assert forall i :: 0 <= i < |all| && Matches(all[i], query) ==> all[i] in r by {
        forall i | 0 <= i < |all| && Matches(all[i], query)
          ensures all[i] in r
        {
          Sequences.FilterComplete(all, MatcherFor(query), i);
        }
      }
      r
  }

  /** The search field's `onChange`: only the displayed list changes. */
  function OnSearchChange(vm: ViewModel, query: string): (vm': ViewModel)
    ensures vm'.processedImages == SearchResults(vm.allImages, query)
    ensures vm' == vm.(processedImages := vm'.processedImages)
    ensures |query| == 0 ==> vm'.processedImages == vm.allImages
  {
    vm.(processedImages := SearchResults(vm.allImages, query))
  }

  /** Searching the results of a search again changes nothing. */
  lemma {:induction false} SearchIdempotent(all: seq<ProcessedImage>, query: string)
    ensures SearchResults(SearchResults(all, query), query) == SearchResults(all, query)
  {
    if |query| > 0 {
      Sequences.FilterIdempotent(all, MatcherFor(query));
    }
  }

  /** The search ignores the case of the query. */
  lemma {:induction false} SearchCaseInsensitive(all: seq<ProcessedImage>, query: string)
    ensures SearchResults(all, Lower(query)) == SearchResults(all, query)
  {
    if |query| > 0 {
      LowerIdempotent(query);
      Sequences.FilterCongruent(all, MatcherFor(Lower(query)), MatcherFor(query));
    }
  }

  /** A record is shown for a non-empty query exactly when its lowered name
      has the lowered query at some position. */
  lemma SearchShowsIff(all: seq<ProcessedImage>, query: string, i: nat)
    requires |query| > 0 && i < |all|
    ensures all[i] in SearchResults(all, query)
            <==> exists at :: OccursAt(Lower(all[i].name), Lower(query), at)
  {
    ContainsIff(Lower(all[i].name), Lower(query));
    if all[i] in SearchResults(all, query) {
      var r := SearchResults(all, query);
      var k :| 0 <= k < |r| && r[k] == all[i];
    }
  }

  // ---------------------------------------------------------------------------
  // Tap and export

  /** Tapping the `k`-th cell opens it in the detail view. */
  function Tap(vm: ViewModel, k: nat): (vm': ViewModel)
    requires k < |vm.processedImages|
    ensures vm'.selectedImage == Some(vm.processedImages[k].image)
    ensures vm'.tempName == vm.processedImages[k].name
    ensures vm'.tempFaceDetected == vm.processedImages[k].containsFace
    ensures vm'.showingDetail
    ensures vm'.processedImages == vm.processedImages && vm'.allImages == vm.allImages
    ensures vm'.nameCount == vm.nameCount && vm'.isProcessing == vm.isProcessing
  {
    var img := vm.processedImages[k];
    vm.(selectedImage := Some(img.image),
        tempName := img.name,
        tempFaceDetected := img.containsFace,
        showingDetail := true)
  }

  function HasName(name: string): ProcessedImage -> bool
  {
    (p: ProcessedImage) => p.name == name
  }

  /** The export button's lookup: the first displayed record named like the
      one in the detail view.  A found record has that name and no earlier
      record does; nothing is found only when no record has the name. */
  function ExportTarget(vm: ViewModel): (r: Option<ProcessedImage>)
    ensures r.Some? ==> r.value.name == vm.tempName
    ensures r.Some? ==> exists i :: 0 <= i < |vm.processedImages| && vm.processedImages[i] == r.value
                           && forall j :: 0 <= j < i ==> vm.processedImages[j].name != vm.tempName
    ensures r.None? <==> forall j :: 0 <= j < |vm.processedImages| ==> vm.processedImages[j].name != vm.tempName
  {
    match Sequences.FirstIndex(vm.processedImages, HasName(vm.tempName))
    case None => None
    case Some(i) => Some(vm.processedImages[i])
  }

  /** After a tap, export finds a record with the tapped name, no later in
      the grid than the tapped cell; when names are distinct it is the
      tapped record itself. */
  lemma TapThenExport(vm: ViewModel, k: nat)
    requires k < |vm.processedImages|
    ensures var found := ExportTarget(Tap(vm, k));
            && found.Some?
            && found.value.name == vm.processedImages[k].name
            && exists i :: 0 <= i <= k && vm.processedImages[i] == found.value
    ensures (forall i, j :: 0 <= i < j < |vm.processedImages| ==>
               vm.processedImages[i].name != vm.processedImages[j].name)
            ==> ExportTarget(Tap(vm, k)) == Some(vm.processedImages[k])
  {
    var vm' := Tap(vm, k);
    var found := ExportTarget(vm');
    assert vm'.processedImages[k].name == vm'.tempName;
    var i :| 0 <= i < |vm.processedImages| && vm.processedImages[i] == found.value
             && forall j :: 0 <= j < i ==> vm.processedImages[j].name != vm'.tempName;
    assert i <= k;
  }

  /** Right after processing, export finds a record carrying the new name. */
  lemma ProcessThenExport(vm: ViewModel, ctx: Context, image: Image, pick: nat, platform: Platform, commitOk: bool)
    requires pick < |Names.NamePool|
    ensures var vm' := Process(vm, ctx, image, pick, platform, commitOk).0;
            && ExportTarget(vm').Some?
            && ExportTarget(vm').value.name == Names.GenerateName(vm.nameCount, pick).0
  {
    var vm' := Process(vm, ctx, image, pick, platform, commitOk).0;
    assert vm'.processedImages[|vm.processedImages|].name == vm'.tempName;
  }

  /** When a displayed record already carries the name the next processing
      step generates, export finds that older record: the lookup takes the
      first match, and the new record is appended after it. */
  lemma ExportFindsOlderNamesake(vm: ViewModel, ctx: Context, image: Image, pick: nat, platform: Platform,
                                 commitOk: bool)
    requires pick < |Names.NamePool|
    requires exists i :: 0 <= i < |vm.processedImages|
                         && vm.processedImages[i].name == Names.GenerateName(vm.nameCount, pick).0
    ensures var vm' := Process(vm, ctx, image, pick, platform, commitOk).0;
            && ExportTarget(vm').Some?
            && exists i :: 0 <= i < |vm.processedImages| && ExportTarget(vm').value == vm.processedImages[i]
  {
    var vm' := Process(vm, ctx, image, pick, platform, commitOk).0;
    var i :| 0 <= i < |vm.processedImages| && vm.processedImages[i].name == vm'.tempName;
    assert vm'.processedImages[..|vm.processedImages|] == vm.processedImages;
    assert vm'.processedImages[i] == vm.processedImages[i];
    var i' :| 0 <= i' < |vm'.processedImages| && vm'.processedImages[i'] == ExportTarget(vm').value
              && forall j :: 0 <= j < i' ==> vm'.processedImages[j].name != vm'.tempName;
    assert i' <= i;
    assert vm'.processedImages[i'] == vm.processedImages[i'];
  }

  /** A load does not rebuild the name counters, so after a relaunch the
      first name drawn for a word carries count 1 again.  When a loaded record
      already has that name, export finds the loaded record while the detail
      view shows the new picture. */
  lemma RelaunchExportFindsLoadedRecord(items: seq<StoredImage>, platform: Platform, ctx: Context, image: Image,
                                        pick: nat, commitOk: bool)
    requires pick < |Names.NamePool|
    requires var loaded := Load(Initial(), Some(items), platform).processedImages;
             exists i :: 0 <= i < |loaded| && loaded[i].name == Names.Render(Names.NamePool[pick], 1)
    ensures var vm := Load(Initial(), Some(items), platform);
            var vm' := Process(vm, ctx, image, pick, platform, commitOk).0;
            && vm'.selectedImage == Some(image)
            && vm'.tempName == Names.Render(Names.NamePool[pick], 1)
            && ExportTarget(vm').Some?
            && exists i :: 0 <= i < |vm.processedImages| && ExportTarget(vm').value == vm.processedImages[i]
  {
    var vm := Load(Initial(), Some(items), platform);
    assert vm.nameCount == Initial().nameCount;
    assert Names.CountOf(vm.nameCount, Names.NamePool[pick]) == 0;
    ExportFindsOlderNamesake(vm, ctx, image, pick, platform, commitOk);
  }

  /** A concrete relaunch: the store holds "sunset-1" for an old picture, and
      the first new picture drawn with "Sunset" is named "sunset-1" too.
      Export then picks the old picture, not the one on screen. */
  lemma RelaunchExportsOldPicture(bytes: Bytes, oldPic: Image, newPic: Image, platform: Platform, ctx: Context,
                                  commitOk: bool)
    requires platform.decodeImage(bytes) == Some(oldPic)
    ensures var vm := Load(Initial(), Some([StoredImage("sunset-1", false, "square", bytes)]), platform);
            var vm' := Process(vm, ctx, newPic, 0, platform, commitOk).0;
            && vm'.selectedImage == Some(newPic)
            && vm'.tempName == "sunset-1"
            && ExportTarget(vm') == Some(ProcessedImage(oldPic, "sunset-1", false, Square))
  {
    var items := [StoredImage("sunset-1", false, "square", bytes)];
    var loadedRecord := ProcessedImage(oldPic, "sunset-1", false, Square);
    LoadAllDecodable(Initial(), items, platform);
    var vm := Load(Initial(), Some(items), platform);
    assert vm.processedImages == [loadedRecord];
    assert Names.Render(Names.NamePool[0], 1) == "sunset-1" by {
      assert Names.NamePool[0] == "Sunset";
      assert Lower("Sunset") == "sunset";
      assert Decimal(1) == "1";
    }
    RelaunchExportFindsLoadedRecord(items, platform, ctx, newPic, 0, commitOk);
  }

  /** The completion step appends only to the displayed list, so clearing
      the search afterwards shows the list as loaded: a record processed
      since the last load disappears from the grid until the next load. */
  lemma ClearedSearchDropsNewRecord(vm: ViewModel, ctx: Context, image: Image, pick: nat, platform: Platform,
                                    commitOk: bool)
    requires pick < |Names.NamePool|
    ensures var vm' := Process(vm, ctx, image, pick, platform, commitOk).0;
            var added := vm'.processedImages[|vm.processedImages|];
            && OnSearchChange(vm', "").processedImages == vm.allImages
            && (added !in vm.allImages ==> added !in OnSearchChange(vm', "").processedImages)
  {
  }

  // ---------------------------------------------------------------------------
  // Picker

  /** The picker's `onChange`: `data` is the transferred bytes (`None` when
      the transfer fails).  Bytes that are missing or not an image leave the
      state and the store untouched; otherwise the picture is processed. */
  function Ingest(vm: ViewModel, ctx: Context, data: Option<Bytes>, pick: nat, platform: Platform, commitOk: bool)
    : (r: (ViewModel, Context))
    requires pick < |Names.NamePool|
    ensures (data.None? || platform.decodeImage(data.value).None?) ==> r == (vm, ctx)
    ensures data.Some? && platform.decodeImage(data.value).Some? ==>
              var image := platform.decodeImage(data.value).value;
              var generated := Names.GenerateName(vm.nameCount, pick);
              var added := ProcessedImage(image, generated.0, DetectFace(image, platform),
                                          Classify(image.width, image.height));
              && r.0.processedImages == vm.processedImages + [added]
              && r.0.selectedImage == Some(image)
              && r.0.nameCount == generated.1
              && r.1 == Save(ctx, added, platform, commitOk)
  {
    match data
    case None => (vm, ctx)
    case Some(bytes) =>
      match platform.decodeImage(bytes)
      case None => (vm, ctx)
      case Some(image) => Process(vm, ctx, image, pick, platform, commitOk)
  }

  // ---------------------------------------------------------------------------
  // Cell heights

  /** `heightFor`: the grid cell height for an orientation. */
  function HeightFor(o: Orientation): (h: int)
    ensures 120 <= h <= 220
  {
    match o
    case Portrait => 220
    case Square => 160
    case Landscape => 120
  }

  /** Portrait cells are tallest, then square, then landscape; so the table
      tells the three classes apart. */
  lemma HeightOrdered()
    ensures HeightFor(Portrait) > HeightFor(Square) > HeightFor(Landscape)
    ensures forall o, o' :: HeightFor(o) == HeightFor(o') ==> o == o'
  {
  }

  /** For pictures with positive sides, the taller a picture is relative to
      its width, the taller (or equally tall) its cell. */
  lemma HeightMonotoneInAspect(w: real, h: real, w': real, h': real)
    requires w > 0.0 && h > 0.0 && w' > 0.0 && h' > 0.0
    requires h * w' >= h' * w
    ensures HeightFor(Classify(w, h)) >= HeightFor(Classify(w', h'))
  {
    if w' < h' {
      assert h * w' >= h' * w > w' * w;
      assert h > w;
    } else if w' == h' {
      assert h * w' >= w' * w;
      assert h >= w;
    }
  }
}
