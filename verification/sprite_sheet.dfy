/** The sprite-sheet tool (tools/sprite_processor.py): the NPC sheet is cut
    into a 13 x 11 grid of equal cells numbered row by row, and a texture
    atlas names every cell "npc_" plus its three-digit number. */
module SpriteSheet {
  import opened Text

  const GridCols: nat := 13
  const GridRows: nat := 11
  const TotalFrames: nat := 143

  /** `analyze_sprite_sheet`'s result: the image size and the cell size. */
  datatype Analysis = Analysis(width: nat, height: nat, cellWidth: nat, cellHeight: nat)

  /** The grid over an image: cells of width // 13 by height // 11, which
      together never reach past the image. */
  function Analyze(width: nat, height: nat): (r: Analysis)
    ensures r.width == width && r.height == height
    ensures GridCols * r.cellWidth <= width < GridCols * (r.cellWidth + 1)
    ensures GridRows * r.cellHeight <= height < GridRows * (r.cellHeight + 1)
    ensures TotalFrames == GridCols * GridRows
  {
    Analysis(width, height, width / GridCols, height / GridRows)
  }

  /** One cell: its number, grid position and crop box. */
  datatype FrameRecord = FrameRecord(frameId: nat, col: nat, row: nat, left: nat, top: nat, right: nat, bottom: nat)

  /** Cell i in row-major order. */
  function FrameAt(a: Analysis, i: nat): FrameRecord {
    var row, col := i / GridCols, i % GridCols;
    var left, top := col * a.cellWidth, row * a.cellHeight;
    FrameRecord(i, col, row, left, top, left + a.cellWidth, top + a.cellHeight)
  }

  /** Every cell of the grid has its number's row and column, is exactly
      one cell in size, and lies inside the image. */
  lemma FrameInsideImage(width: nat, height: nat, i: nat)
    requires i < TotalFrames
    ensures var a := Analyze(width, height); var f := FrameAt(a, i);
      && f.row * GridCols + f.col == i && f.col < GridCols && f.row < GridRows
      && f.right - f.left == a.cellWidth && f.bottom - f.top == a.cellHeight
      && f.right <= width && f.bottom <= height
  {
    var a := Analyze(width, height);
    var f := FrameAt(a, i);
    MulLeft(f.col + 1, GridCols, a.cellWidth);
    MulLeft(f.row + 1, GridRows, a.cellHeight);
  }

  lemma MulLeft(m: nat, n: nat, c: nat)
    requires m <= n
    ensures m * c <= n * c
  {
  }

  /** The enumeration in `main`: every frame number in turn. */
  method EnumerateFrames(a: Analysis) returns (frames: seq<FrameRecord>)
    ensures |frames| == TotalFrames
    ensures forall i :: 0 <= i < |frames| ==> frames[i] == FrameAt(a, i)
  {
    frames := [];
    var i := 0;
    while i < TotalFrames
      invariant 0 <= i <= TotalFrames && |frames| == i
      invariant forall j :: 0 <= j < i ==> frames[j] == FrameAt(a, j)
    {
      var row := i / GridCols;
      var col := i % GridCols;
      var left := col * a.cellWidth;
      var top := row * a.cellHeight;
      frames := frames + [FrameRecord(i, col, row, left, top, left + a.cellWidth, top + a.cellHeight)];
      i := i + 1;
    }
  }

  /** `extract_sprite_frames`: rows outside, columns inside, numbering
      each cell row * 13 + col. It lists the cells in the same order and
      with the same numbers and boxes as `main`'s enumeration. */
  method ExtractFrames(a: Analysis) returns (frames: seq<FrameRecord>)
    ensures |frames| == TotalFrames
    ensures forall i :: 0 <= i < |frames| ==> frames[i] == FrameAt(a, i)
  {
    frames := [];
    var row := 0;
    while row < GridRows
      invariant 0 <= row <= GridRows && |frames| == row * GridCols
      invariant forall j :: 0 <= j < |frames| ==> frames[j] == FrameAt(a, j)
    {
      var col := 0;
      while col < GridCols
        invariant 0 <= col <= GridCols && |frames| == row * GridCols + col
        invariant forall j :: 0 <= j < |frames| ==> frames[j] == FrameAt(a, j)
      {
        var left := col * a.cellWidth;
        var top := row * a.cellHeight;
        var frameNumber := row * GridCols + col;
        assert frameNumber / GridCols == row && frameNumber % GridCols == col;
        frames := frames + [FrameRecord(frameNumber, col, row, left, top, left + a.cellWidth, top + a.cellHeight)];
        col := col + 1;
      }
      row := row + 1;
    }
  }

  /** `f"{n:03d}"`: at least three digits, zero-padded. */
  function Pad3(n: nat): (s: string)
    ensures n < 1000 ==> |s| == 3
    ensures forall i :: 0 <= i < |s| ==> '0' <= s[i] <= '9'
  {
    if n < 1000 then
      var tens := n / 10;
      [DigitChar(tens / 10), DigitChar(tens % 10), DigitChar(n % 10)]
    else NatToString(n)
  }

  function DigitValue(c: char): int {
    c as int - '0' as int
  }

  /** Three digits read back as a number. */
  function ThreeDigitValue(s: string): int
    requires |s| == 3
  {
    DigitValue(s[0]) * 100 + DigitValue(s[1]) * 10 + DigitValue(s[2])
  }

  lemma Pad3RoundTrip(n: nat)
    requires n < 1000
    ensures ThreeDigitValue(Pad3(n)) == n
  {
    var tens := n / 10;
    DigitCharValue(tens / 10);
    DigitCharValue(tens % 10);
    DigitCharValue(n % 10);
    assert tens / 10 * 10 + tens % 10 == tens;
    assert tens * 10 + n % 10 == n;
  }

  lemma DigitCharValue(d: nat)
    requires d < 10
    ensures DigitValue(DigitChar(d)) == d
  {
  }

  /** The atlas key of frame n. */
  function FrameName(n: nat): string {
    "npc_" + Pad3(n)
  }

  /** Frame names are distinct for distinct frames below 1000. */
  lemma FrameNameInjective(m: nat, n: nat)
    requires m < 1000 && n < 1000 && FrameName(m) == FrameName(n)
    ensures m == n
  {
    assert Pad3(m) == FrameName(m)[4..] == FrameName(n)[4..] == Pad3(n);
    Pad3RoundTrip(m);
    Pad3RoundTrip(n);
  }

  /** One atlas frame: its rectangle on the sheet, never rotated or
      trimmed, with a source rectangle of one cell at the origin. */
  datatype AtlasEntry = AtlasEntry(
    x: nat, y: nat, w: nat, h: nat, rotated: bool, trimmed: bool,
    sourceX: nat, sourceY: nat, sourceW: nat, sourceH: nat, sourceSizeW: nat, sourceSizeH: nat)

  datatype Atlas = Atlas(image: string, format: string, w: nat, h: nat, scale: nat, frames: map<string, AtlasEntry>)

  /** The entry for one frame record: the crop box's top-left and the
      analysed cell size. */
  function EntryFor(f: FrameRecord, a: Analysis): (r: AtlasEntry)
    ensures r.x == f.left && r.y == f.top && r.w == a.cellWidth && r.h == a.cellHeight
    ensures !r.rotated && !r.trimmed && r.sourceX == 0 && r.sourceY == 0
    ensures r.sourceW == r.sourceSizeW == a.cellWidth && r.sourceH == r.sourceSizeH == a.cellHeight
  {
    AtlasEntry(f.left, f.top, a.cellWidth, a.cellHeight, false, false,
               0, 0, a.cellWidth, a.cellHeight, a.cellWidth, a.cellHeight)
  }

  /** The frames table after entering the records in order; a later record
      with the same name replaces an earlier one. */
  function AtlasFrames(frames: seq<FrameRecord>, a: Analysis): map<string, AtlasEntry>
    decreases |frames|
  {
    if frames == [] then map[]
    else
      var last := frames[|frames| - 1];
      AtlasFrames(frames[..|frames| - 1], a)[FrameName(last.frameId) := EntryFor(last, a)]
  }

  /** `create_sprite_atlas_config`: one texture the size of the image,
      and one frame entry per record. */
  method CreateSpriteAtlasConfig(frames: seq<FrameRecord>, a: Analysis) returns (atlas: Atlas)
    ensures atlas.image == "npc.png" && atlas.format == "RGBA8888" && atlas.scale == 1
    ensures atlas.w == a.width && atlas.h == a.height
    ensures atlas.frames == AtlasFrames(frames, a)
  {
    var table: map<string, AtlasEntry> := map[];
    var i := 0;
    while i < |frames|
      invariant 0 <= i <= |frames|
      invariant table == AtlasFrames(frames[..i], a)
    {
      var frame := frames[i];
      assert frames[..i + 1][..i] == frames[..i];
      table := table[FrameName(frame.frameId) := EntryFor(frame, a)];
      i := i + 1;
    }
    assert frames[..|frames|] == frames;
    atlas := Atlas("npc.png", "RGBA8888", a.width, a.height, 1, table);
  }

  /** For the enumerated frames the atlas has exactly one entry per frame
      number: frame i sits under its own name with its crop box's corner,
      and every key is some frame's name. */
  lemma {:induction false} AtlasOfEnumeration(frames: seq<FrameRecord>, a: Analysis, n: nat)
    requires n <= |frames| <= TotalFrames
    requires forall i :: 0 <= i < |frames| ==> frames[i] == FrameAt(a, i)
    ensures forall i :: 0 <= i < n ==>
      FrameName(i) in AtlasFrames(frames[..n], a) && AtlasFrames(frames[..n], a)[FrameName(i)] == EntryFor(FrameAt(a, i), a)
    ensures forall k :: k in AtlasFrames(frames[..n], a) ==> exists i :: 0 <= i < n && k == FrameName(i)
  {
    if n > 0 {
      AtlasOfEnumeration(frames, a, n - 1);
      AtlasStep(frames, a, n);
      var m, prev := AtlasFrames(frames[..n], a), AtlasFrames(frames[..n - 1], a);
      forall i | 0 <= i < n - 1
        ensures FrameName(i) in m && m[FrameName(i)] == EntryFor(FrameAt(a, i), a)
      {
        FrameNamesDiffer(i, n - 1);
        UpdateKeeps(prev, FrameName(n - 1), EntryFor(FrameAt(a, n - 1), a), FrameName(i));
      }
      forall k | k in m
        ensures exists i :: 0 <= i < n && k == FrameName(i)
      {
        if k != FrameName(n - 1) {
          assert k in prev;
        }
      }
    }
  }

  lemma FrameNamesDiffer(m: nat, n: nat)
    requires m < 1000 && n < 1000 && m != n
    ensures FrameName(m) != FrameName(n)
  {
    if FrameName(m) == FrameName(n) {
      FrameNameInjective(m, n);
    }
  }

  lemma UpdateKeeps<K, V>(m: map<K, V>, k: K, v: V, j: K)
    requires j in m && j != k
    ensures j in m[k := v] && m[k := v][j] == m[j]
  {
  }

  /** One more enumerated record adds its own name to the table. */
  lemma AtlasStep(frames: seq<FrameRecord>, a: Analysis, n: nat)
    requires 0 < n <= |frames| && frames[n - 1] == FrameAt(a, n - 1)
    ensures AtlasFrames(frames[..n], a) == AtlasFrames(frames[..n - 1], a)[FrameName(n - 1) := EntryFor(FrameAt(a, n - 1), a)]
  {
    assert frames[..n][..n - 1] == frames[..n - 1];
    assert frames[..n][n - 1] == frames[n - 1];
  }
}
