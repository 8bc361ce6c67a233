/** Preview composition: the storyboard card. Each time its list of image
    files changes, it starts one read per file; every read completion appends
    a preview to a batch shared by the reads of that list, and the batch is
    published as the card's previews once it holds one preview per file. The
    card lays the published previews out on a grid chosen from their count. */
module Preview {
  import opened Wrappers
  import Decimal
  import Intake

  /** `reader.result` at `onloadend`: a data URL, or null after a failed read.
      The decoding itself is not modelled. */
  type ReadResult = Option<string>

  datatype ImagePreview = ImagePreview(id: string, src: ReadResult, alt: string)

  // ---------------------------------------------------------------------------
  // Preview ids

  /** `${file.name}-${Date.now()}-${counter}`. */
  function PreviewId(name: string, now: int, serial: nat): string {
    name + "-" + Decimal.IntToString(now) + "-" + Decimal.IntToString(serial)
  }

  /** The text after the last `-` of `s` (all of `s` if it has none). */
  function AfterLastDash(s: string): string {
    if s == [] then []
    else if s[|s| - 1] == '-' then []
    else AfterLastDash(s[..|s| - 1]) + [s[|s| - 1]]
  }

  lemma {:induction false} AfterLastDashOfTail(p: string, d: string)
    requires '-' !in d
    ensures AfterLastDash(p + "-" + d) == d
    decreases |d|
  {
    var s := p + "-" + d;
    if d != [] {
      var d' := d[..|d| - 1];
      assert s[..|s| - 1] == p + "-" + d';
      AfterLastDashOfTail(p, d');
      assert d == d' + [d[|d| - 1]];
    } else {
      assert s[|s| - 1] == '-';
    }
  }

  /** Whatever the file name holds, the counter can be read back from the
      text after the id's last `-`. */
  lemma PreviewIdNamesCounter(name: string, now: int, serial: nat)
    ensures AfterLastDash(PreviewId(name, now, serial)) == Decimal.IntToString(serial)
  {
    var head, digits := name + "-" + Decimal.IntToString(now), Decimal.IntToString(serial);
    assert '-' !in digits by { assert forall i :: 0 <= i < |digits| ==> Decimal.IsDigit(digits[i]); }
    assert PreviewId(name, now, serial) == head + "-" + digits;
    AfterLastDashOfTail(head, digits);
  }

  /** Previews numbered differently get different ids, whatever their file
      names and timestamps: the number is the text after the id's last `-`. */
  lemma PreviewIdsDistinct(name1: string, now1: int, serial1: nat, name2: string, now2: int, serial2: nat)
    requires serial1 != serial2
    ensures PreviewId(name1, now1, serial1) != PreviewId(name2, now2, serial2)
  {
    PreviewIdNamesCounter(name1, now1, serial1);
    PreviewIdNamesCounter(name2, now2, serial2);
    if PreviewId(name1, now1, serial1) == PreviewId(name2, now2, serial2) {
      Decimal.IntToStringInjective(serial1, serial2);
    }
  }

  predicate DistinctIds(previews: seq<ImagePreview>) {
    forall j, k :: 0 <= j < k < |previews| ==> previews[j].id != previews[k].id
  }

  // ---------------------------------------------------------------------------
  // Grid layout

  /** The column class of the grid. */
  datatype GridColumns = GridCols1 | GridCols2 | GridCols3 {
    function ClassName(): string {
      match this
      case GridCols1 => "grid-cols-1"
      case GridCols2 => "grid-cols-2"
      case GridCols3 => "grid-cols-3"
    }

    function Count(): nat {
      match this
      case GridCols1 => 1
      case GridCols2 => 2
      case GridCols3 => 3
    }
  }

  /** The row class of the grid. */
  datatype GridRows = GridRows1 | GridRows2 {
    function ClassName(): string {
      match this
      case GridRows1 => "grid-rows-1"
      case GridRows2 => "grid-rows-2"
    }

    function Count(): nat {
      match this
      case GridRows1 => 1
      case GridRows2 => 2
    }
  }

  /** `getGridCols`: one column for at most one image, two for two, three
      for three, and two for four or more. */
  function GetGridCols(count: nat): (c: GridColumns)
    ensures count <= 1 ==> c.Count() == 1
    ensures count == 2 ==> c.Count() == 2
    ensures count == 3 ==> c.Count() == 3
    ensures count >= 4 ==> c.Count() == 2
  {
    if count <= 1 then GridCols1
    else if count == 2 then GridCols2
    else if count == 3 then GridCols3
    else GridCols2
  }

  /** `getGridRows`: one row for at most two images, two rows otherwise. */
  function GetGridRows(count: nat): (r: GridRows)
    ensures r.Count() == (if count <= 2 then 1 else 2)
  {
    if count <= 2 then GridRows1 else GridRows2
  }

  /** A rendered grid cell: an image keyed by its preview's id, or the blank
      filler cell. */
  datatype Cell = ImageCell(key: string, src: ReadResult, alt: string) | FillerCell

  datatype Grid = Grid(cols: GridColumns, rows: GridRows, cells: seq<Cell>)

  function ImageCellOf(p: ImagePreview): Cell {
    ImageCell(p.id, p.src, p.alt)
  }

  /** What the card renders for its published previews: nothing for none;
      otherwise the grid with one image cell per preview, in order, and one
      filler cell after them when there are exactly three. */
  function Render(previews: seq<ImagePreview>): (g: Option<Grid>)
    ensures g.None? <==> previews == []
    ensures g.Some? ==>
              g.value.cols == GetGridCols(|previews|) && g.value.rows == GetGridRows(|previews|) &&
              |g.value.cells| == |previews| + (if |previews| == 3 then 1 else 0) &&
              (forall k :: 0 <= k < |previews| ==> g.value.cells[k] == ImageCellOf(previews[k])) &&
              (|previews| == 3 ==> g.value.cells[3] == FillerCell)
    // up to the cap of four images, the cells fill the first row of the grid,
    // fit in the grid, and reach the second row exactly when it has two rows
    ensures g.Some? && |previews| <= 4 ==>
              var cols, rows, n := g.value.cols.Count(), g.value.rows.Count(), |g.value.cells|;
              cols <= n <= cols * rows && (rows == 2 <==> n > cols)
  {
    if |previews| == 0 then None
    else
      var images := seq(|previews|, k requires 0 <= k < |previews| => ImageCellOf(previews[k]));
      var filler := if |previews| == 3 then [FillerCell] else [];
      Some(Grid(GetGridCols(|previews|), GetGridRows(|previews|), images + filler))
  }

  // ---------------------------------------------------------------------------
  // Completion order

  predicate DistinctIndices(order: seq<nat>) {
    forall j, k :: 0 <= j < k < |order| ==> order[j] != order[k]
  }

  predicate Below(order: seq<nat>, n: nat) {
    forall k :: 0 <= k < |order| ==> order[k] < n
  }

  function IndexSet(n: nat): (s: set<nat>)
    ensures |s| == n
    ensures forall i :: i in s <==> 0 <= i < n
  {
    if n == 0 then {} else IndexSet(n - 1) + {n - 1}
  }

  lemma {:induction false} DistinctElementCount(order: seq<nat>)
    requires DistinctIndices(order)
    ensures |set k | 0 <= k < |order| :: order[k]| == |order|
  {
    if order != [] {
      var init := order[..|order| - 1];
      DistinctElementCount(init);
      var last := order[|order| - 1];
      assert (set k | 0 <= k < |order| :: order[k])
          == (set k | 0 <= k < |init| :: init[k]) + {last};
      assert last !in (set k | 0 <= k < |init| :: init[k]);
    }
  }

  lemma {:induction false} SubsetCardinality(a: set<nat>, b: set<nat>)
    requires a <= b
    ensures |a| <= |b|
    ensures |a| == |b| ==> a == b
    decreases |a|
  {
    if a != {} {
      var x :| x in a;
      SubsetCardinality(a - {x}, b - {x});
      if |a| == |b| {
        assert a == (a - {x}) + {x} && b == (b - {x}) + {x};
      }
    }
  }

  /** Pigeonholes: distinct indices below `n` number at most `n`, and when
      they number `n` every index below `n` is among them. */
  lemma DistinctIndicesBound(order: seq<nat>, n: nat)
    requires DistinctIndices(order) && Below(order, n)
    ensures |order| <= n
    ensures |order| == n ==> forall i :: 0 <= i < n ==> i in order
  {
    var elems := set k | 0 <= k < |order| :: order[k];
    DistinctElementCount(order);
    SubsetCardinality(elems, IndexSet(n));
    if |order| == n {
      forall i | 0 <= i < n
        ensures i in order
      {
        assert i in elems;
      }
    }
  }

  predicate IsPermutation(order: seq<nat>, n: nat) {
    |order| == n && DistinctIndices(order) && Below(order, n)
  }

  /** The k-th preview comes from the k-th completed read, of file
      `order[k]` at time `stamps[k]`: it is labelled with that file's name and
      numbered k in its id. */
  ghost predicate Numbered(previews: seq<ImagePreview>, files: seq<Intake.FileHandle>, order: seq<nat>, stamps: seq<int>) {
    |previews| == |order| == |stamps| && Below(order, |files|) &&
    forall k :: 0 <= k < |previews| ==>
      previews[k].alt == files[order[k]].name &&
      previews[k].id == PreviewId(files[order[k]].name, stamps[k], k)
  }

  /** Numbered previews have pairwise distinct ids. */
  lemma NumberedIdsDistinct(previews: seq<ImagePreview>, files: seq<Intake.FileHandle>, order: seq<nat>, stamps: seq<int>)
    requires Numbered(previews, files, order, stamps)
    ensures DistinctIds(previews)
  {
    forall j, k | 0 <= j < k < |previews|
      ensures previews[j].id != previews[k].id
    {
      PreviewIdsDistinct(files[order[j]].name, stamps[j], j, files[order[k]].name, stamps[k], k);
    }
  }

  lemma NumberedAppend(previews: seq<ImagePreview>, files: seq<Intake.FileHandle>, order: seq<nat>, stamps: seq<int>,
                       i: nat, result: ReadResult, now: int)
    requires Numbered(previews, files, order, stamps) && i < |files|
    ensures Numbered(previews + [ImagePreview(PreviewId(files[i].name, now, |previews|), result, files[i].name)],
                     files, order + [i], stamps + [now])
  {
  }

  // ---------------------------------------------------------------------------
  // The card's published state and the batch accumulator

  /** The card's `imagePreviews` state, with the record of every value
      published to it, oldest first. */
  class Composer {
    var imagePreviews: seq<ImagePreview>
    ghost var publishes: seq<seq<ImagePreview>>

    constructor ()
      ensures imagePreviews == [] && publishes == []
    {
      imagePreviews := [];
      publishes := [];
    }

    /** `setImagePreviews`. */
    method SetImagePreviews(previews: seq<ImagePreview>)
      modifies this
      ensures imagePreviews == previews
      ensures publishes == old(publishes) + [previews]
    {
      imagePreviews := previews;
      publishes := publishes + [previews];
    }
  }

  /** One run of the card's effect for a list of image files: the shared
      `newPreviews` list and `counter` that the read callbacks of this run
      close over, and the card they publish to. The ghost fields record the
      order in which the files' reads completed and the timestamps taken. */
  class Batch {
    const imageFiles: seq<Intake.FileHandle>
    const composer: Composer
    var newPreviews: seq<ImagePreview>
    var counter: nat
    ghost var order: seq<nat>
    ghost var stamps: seq<int>

    /** The k-th preview comes from the k-th completed read: it is labelled
        with that file's name and numbered k; no file completes twice. */
    ghost predicate Valid()
      reads this
    {
      counter == |newPreviews| && DistinctIndices(order) && Numbered(newPreviews, imageFiles, order, stamps)
    }

    /** The effect's set-up: an empty batch and a zero counter. Nothing is
        published, so the card keeps its previous previews. */
    constructor (imageFiles: seq<Intake.FileHandle>, composer: Composer)
      ensures Valid()
      ensures this.imageFiles == imageFiles && this.composer == composer
      ensures newPreviews == [] && counter == 0 && order == []
    {
      this.imageFiles := imageFiles;
      this.composer := composer;
      newPreviews := [];
      counter := 0;
      order := [];
      stamps := [];
    }

    /** The `onloadend` callback of file `i`'s read, fired with its result
        (null after a failed read) at time `now`: it appends the preview,
        advances the counter, and publishes the batch when it holds one
        preview per file. */
    method Complete(i: nat, result: ReadResult, now: int)
      requires Valid()
      requires i < |imageFiles| && i !in order
      modifies this, composer
      ensures Valid()
      ensures order == old(order) + [i] && stamps == old(stamps) + [now]
      ensures newPreviews == old(newPreviews) +
                [ImagePreview(PreviewId(imageFiles[i].name, now, old(counter)), result, imageFiles[i].name)]
      ensures counter == old(counter) + 1
      ensures DistinctIds(newPreviews)
      ensures |newPreviews| <= |imageFiles|
      // the batch is published on the completion that fills it, and only then
      ensures |newPreviews| == |imageFiles| ==>
                composer.imagePreviews == newPreviews &&
                composer.publishes == old(composer.publishes) + [newPreviews] &&
                forall j :: 0 <= j < |imageFiles| ==> j in order
      ensures |newPreviews| < |imageFiles| ==> unchanged(composer)
    {
      NumberedAppend(newPreviews, imageFiles, order, stamps, i, result, now);
      var file := imageFiles[i];
      newPreviews := newPreviews + [ImagePreview(PreviewId(file.name, now, counter), result, file.name)];
      counter := counter + 1;
      order := order + [i];
      stamps := stamps + [now];
      NumberedIdsDistinct(newPreviews, imageFiles, order, stamps);
      DistinctIndicesBound(order, |imageFiles|);
      if |newPreviews| == |imageFiles| {
        composer.SetImagePreviews(newPreviews);
      }
    }
  }

  /** Runs a whole batch: the reads of the files complete one after another
      in the order `completionOrder`, file `i`'s read with `results[i]`, the
      k-th completion at time `stamps[k]`. Whatever the order, the batch is
      published exactly once, at the last completion, whole; an empty list of
      files publishes nothing. */
  method RunBatch(b: Batch, completionOrder: seq<nat>, results: seq<ReadResult>, stamps: seq<int>)
    requires b.Valid() && b.order == []
    requires IsPermutation(completionOrder, |b.imageFiles|)
    requires |results| == |b.imageFiles| && |stamps| == |b.imageFiles|
    modifies b, b.composer
    ensures b.Valid() && b.order == completionOrder && |b.newPreviews| == |b.imageFiles|
    ensures forall k :: 0 <= k < |b.newPreviews| ==>
              b.newPreviews[k].src == results[completionOrder[k]] &&
              b.newPreviews[k].alt == b.imageFiles[completionOrder[k]].name
    ensures DistinctIds(b.newPreviews)
    ensures |b.imageFiles| > 0 ==>
              b.composer.imagePreviews == b.newPreviews &&
              b.composer.publishes == old(b.composer.publishes) + [b.newPreviews]
    ensures |b.imageFiles| == 0 ==> unchanged(b.composer)
  {
    var n := |b.imageFiles|;
    var k := 0;
    while k < n
      invariant 0 <= k <= n
      invariant b.Valid() && b.order == completionOrder[..k] && |b.newPreviews| == k
      invariant forall j :: 0 <= j < k ==>
                  b.newPreviews[j].src == results[completionOrder[j]] &&
                  b.newPreviews[j].alt == b.imageFiles[completionOrder[j]].name
      invariant DistinctIds(b.newPreviews)
      invariant k < n || n == 0 ==> unchanged(b.composer)
      invariant k == n && n > 0 ==>
                  b.composer.imagePreviews == b.newPreviews &&
                  b.composer.publishes == old(b.composer.publishes) + [b.newPreviews]
    {
      var i := completionOrder[k];
      assert i !in b.order;
      assert completionOrder[..k + 1] == completionOrder[..k] + [i];
      b.Complete(i, results[i], stamps[k]);
      k := k + 1;
    }
    assert completionOrder[..n] == completionOrder;
  }

  /** Two runs of the effect for two successive file lists, one file each,
      both publishing to the same card. The run for the newer list completes
      first; the superseded run's late completion still publishes, and its
      previews replace the newer ones: nothing guards a batch against being
      stale. */
  method SupersededBatchStillPublishes(composer: Composer, older: Intake.FileHandle, newer: Intake.FileHandle,
                                       olderResult: ReadResult, newerResult: ReadResult, t1: int, t2: int)
    modifies composer
    ensures composer.imagePreviews == [ImagePreview(PreviewId(older.name, t2, 0), olderResult, older.name)]
    ensures composer.publishes == old(composer.publishes) +
              [[ImagePreview(PreviewId(newer.name, t1, 0), newerResult, newer.name)], composer.imagePreviews]
  {
    var stale := new Batch([older], composer);
    var current := new Batch([newer], composer);
    ghost var before := composer.publishes;
    current.Complete(0, newerResult, t1);
    ghost var newerPreviews := current.newPreviews;
    assert newerPreviews == [ImagePreview(PreviewId(newer.name, t1, 0), newerResult, newer.name)];
    assert composer.publishes == before + [newerPreviews];
    stale.Complete(0, olderResult, t2);
    assert composer.publishes == before + [newerPreviews] + [composer.imagePreviews];
    assert composer.publishes == before + [newerPreviews, composer.imagePreviews];
  }
}
