/** The source's configuration on a 1920 x 1080 screen with a 48-pixel
    taskbar: a 3 x 3 grid of nine 640 x 480 windows. */
module Example {
  import opened Geometry
  import Layout
  import Positions

  function NineWindows(): (dims: seq<Size>)
    ensures |dims| == 9 && forall k :: 0 <= k < 9 ==> dims[k] == Size(640, 480)
  {
    seq(9, _ => Size(640, 480))
  }

  /** Height-constrained (640/480 * 3/3 < 1920/1032): each cell is 458 x 344. */
  lemma WorkedExampleSize()
    ensures Layout.NewWindowsSize(Size(1920, 1032), 3, 3, NineWindows()) == Size(458, 344)
  {
    var dims := NineWindows();
    assert dims == [Size(640, 480), Size(640, 480), Size(640, 480), Size(640, 480), Size(640, 480),
                    Size(640, 480), Size(640, 480), Size(640, 480), Size(640, 480)];
    assert Layout.TotalWidth(dims) == 5760;
    assert Layout.TotalHeight(dims) == 4320;
    assert !Layout.ResizeByWidth(Size(1920, 1032), 3, 3, 5760, 4320);
    assert 1032 / 3 == 344;
    assert (344 * 5760) / 4320 == 458;
  }

  /** The 458 x 344 cells leave 546 pixels across (offset 273) and none down;
      the first row starts at (273, 0), (730, 0), (1187, 0). */
  lemma WorkedExamplePositions()
    ensures var r := Positions.NewWindowsPositions(Size(1920, 1032), 3, 3, Size(458, 344));
            r[..3] == [Position(273, 0), Position(730, 0), Position(1187, 0)]
  {
    var screen, size := Size(1920, 1032), Size(458, 344);
    var r := Positions.NewWindowsPositions(screen, 3, 3, size);
    assert Positions.Offset(1920, 3, 458) == 273;
    assert Positions.Offset(1032, 3, 344) == 0;
    Positions.PositionAtClosedForm(screen, 3, 3, size, 0, 0);
    Positions.PositionAtClosedForm(screen, 3, 3, size, 1, 0);
    Positions.PositionAtClosedForm(screen, 3, 3, size, 2, 0);
    assert r[0] == Position(273, 0);
    assert r[1] == Position(730, 0);
    assert r[2] == Position(1187, 0);
  }
}
