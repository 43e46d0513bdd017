/** The sample inputs of tests/test_ibox.cpp that need no JSON parsing:
    the ten-row TSV of ImgBox.FromTsv, read by from_csv_reader, grouped by
    image, and tallied into the 21 (category, level) counters. */
module Samples {
  import opened FaultCode
  import opened Vocabulary
  import opened Boxes
  import opened Grouper
  import opened Adapter
  import opened Export

  /** The rows of the sample TSV, with the columns the reader takes. */
  const TsvSample: seq<TsvRow> := [
    TsvRow("G0018488.JPG", "poor", "depression", 3203, 563, 1166, 3925),
    TsvRow("G0033549.JPG", "fair", "pothole", 379, 46, 2090, 4148),
    TsvRow("G0047026.JPG", "fair", "crack", 1832, 1071, 1528, 194),
    TsvRow("G0025306.JPG", "fair", "bump", 3800, 476, 207, 165),
    TsvRow("G0017910.JPG", "verypoor", "pothole", 1149, 1697, 3153, 1002),
    TsvRow("G0053839.JPG", "fair", "crack", 129, 1158, 2839, 2501),
    TsvRow("G0040312.JPG", "poor", "crack", 1320, 1569, 1187, 2263),
    TsvRow("G0021377.JPG", "fair", "vegetation", 2522, 523, 929, 4055),
    TsvRow("G0018488.JPG", "verypoor", "crack", 21, 3128, 4615, 473),
    TsvRow("G0018488.JPG", "fair", "vegetation", 2255, 196, 2117, 4411)
  ]

  /** The tally the test expects, cell t * 3 + (l - 1) for category slot t
      at level l, in the ibox slot order. */
  const TsvSampleTally: seq<nat> := [1, 0, 0, 2, 1, 1, 0, 1, 0, 0, 0, 0, 1, 0, 1, 0, 0, 0, 2, 0, 0]

  /** The codes the reader gives the sample rows: one category at one level
      each, pothole in slot 4 and vegetation in slot 6. */
  lemma TsvSampleFaults()
    ensures FaultsOf(RowBoxes(Ibox, TsvSample)) ==
      [0x20, 0x100, 0x4, 0x1, 0x300, 0x4, 0x8, 0x1000, 0xC, 0x1000]
  {
  }

  /** ImgBox.FromTsv: counting every box of every group that
      from_csv_reader returns for the sample gives the expected 21 counters. */
  lemma FromTsvTally()
    ensures forall k | 0 <= k < NumCells ::
      Tally(FaultsOf(AllBoxes(Grouped(RowBoxes(Ibox, TsvSample)))), k) == TsvSampleTally[k]
  {
    var bs := RowBoxes(Ibox, TsvSample);
    TsvSampleFaults();
    forall k | 0 <= k < NumCells
      ensures Tally(FaultsOf(AllBoxes(Grouped(bs))), k) == TsvSampleTally[k]
    {
      GroupedTally(bs, k);
      SampleCell(k);
    }
  }

  /** A tally is the sum of the cells of its codes. */
  lemma TallySnoc(fs: seq<Fault>, f: Fault, k: nat)
    requires k < NumCells
    ensures Tally(fs + [f], k) == Tally(fs, k) + CountCell(f, k)
  {
    assert (fs + [f])[..|fs|] == fs;
  }

  lemma SampleCell(k: nat)
    requires k < NumCells
    ensures Tally([0x20, 0x100, 0x4, 0x1, 0x300, 0x4, 0x8, 0x1000, 0xC, 0x1000], k) == TsvSampleTally[k]
  {
    var fs: seq<Fault> := [0x20, 0x100, 0x4, 0x1, 0x300, 0x4, 0x8, 0x1000, 0xC, 0x1000];
    assert Tally(fs, k) == CountCell(0x20, k) + CountCell(0x100, k) + CountCell(0x4, k) + CountCell(0x1, k) + CountCell(0x300, k) + CountCell(0x4, k) + CountCell(0x8, k) + CountCell(0x1000, k) + CountCell(0xC, k) + CountCell(0x1000, k) by {
      TallySnoc(fs[..9], fs[9], k);
      assert fs[..10] == fs[..9] + [fs[9]];
      TallySnoc(fs[..8], fs[8], k);
      assert fs[..9] == fs[..8] + [fs[8]];
      TallySnoc(fs[..7], fs[7], k);
      assert fs[..8] == fs[..7] + [fs[7]];
      TallySnoc(fs[..6], fs[6], k);
      assert fs[..7] == fs[..6] + [fs[6]];
      TallySnoc(fs[..5], fs[5], k);
      assert fs[..6] == fs[..5] + [fs[5]];
      TallySnoc(fs[..4], fs[4], k);
      assert fs[..5] == fs[..4] + [fs[4]];
      TallySnoc(fs[..3], fs[3], k);
      assert fs[..4] == fs[..3] + [fs[3]];
      TallySnoc(fs[..2], fs[2], k);
      assert fs[..3] == fs[..2] + [fs[2]];
      TallySnoc(fs[..1], fs[1], k);
      assert fs[..2] == fs[..1] + [fs[1]];
      TallySnoc(fs[..0], fs[0], k);
      assert fs[..1] == fs[..0] + [fs[0]];
      assert fs[..10] == fs;
    }
    assert k == 0 || k == 1 || k == 2 || k == 3 || k == 4 || k == 5 || k == 6 || k == 7 || k == 8 || k == 9 || k == 10 || k == 11 || k == 12 || k == 13 || k == 14 || k == 15 || k == 16 || k == 17 || k == 18 || k == 19 || k == 20;
  }
}
