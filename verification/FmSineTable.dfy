/**
  The table of the integer sine: a quarter of a period in 256 steps, with one more value at
  each end for the interpolation.  The steps are kept in rows of sixteen.
*/
module FmSineTable {

  function Row(k: nat): (row: seq<int>)
    requires k < 16
    ensures |row| == 16
  {
    match k
    case 0 => [0, 201, 402, 603, 804, 1005, 1206, 1406, 1607, 1808, 2009, 2209, 2410, 2610, 2811, 3011]
    case 1 => [3211, 3411, 3611, 3811, 4011, 4210, 4409, 4608, 4807, 5006, 5205, 5403, 5601, 5799, 5997, 6195]
    case 2 => [6392, 6589, 6786, 6982, 7179, 7375, 7571, 7766, 7961, 8156, 8351, 8545, 8739, 8932, 9126, 9319]
    case 3 => [9511, 9703, 9895, 10087, 10278, 10469, 10659, 10849, 11038, 11227, 11416, 11604, 11792, 11980, 12166, 12353]
    case 4 => [12539, 12724, 12909, 13094, 13278, 13462, 13645, 13827, 14009, 14191, 14372, 14552, 14732, 14911, 15090, 15268]
    case 5 => [15446, 15623, 15799, 15975, 16150, 16325, 16499, 16672, 16845, 17017, 17189, 17360, 17530, 17699, 17868, 18036]
    case 6 => [18204, 18371, 18537, 18702, 18867, 19031, 19194, 19357, 19519, 19680, 19840, 20000, 20159, 20317, 20474, 20631]
    case 7 => [20787, 20942, 21096, 21249, 21402, 21554, 21705, 21855, 22004, 22153, 22301, 22448, 22594, 22739, 22883, 23027]
    case 8 => [23169, 23311, 23452, 23592, 23731, 23869, 24006, 24143, 24278, 24413, 24546, 24679, 24811, 24942, 25072, 25201]
    case 9 => [25329, 25456, 25582, 25707, 25831, 25954, 26077, 26198, 26318, 26437, 26556, 26673, 26789, 26905, 27019, 27132]
    case 10 => [27244, 27355, 27466, 27575, 27683, 27790, 27896, 28001, 28105, 28208, 28309, 28410, 28510, 28608, 28706, 28802]
    case 11 => [28897, 28992, 29085, 29177, 29268, 29358, 29446, 29534, 29621, 29706, 29790, 29873, 29955, 30036, 30116, 30195]
    case 12 => [30272, 30349, 30424, 30498, 30571, 30643, 30713, 30783, 30851, 30918, 30984, 31049, 31113, 31175, 31236, 31297]
    case 13 => [31356, 31413, 31470, 31525, 31580, 31633, 31684, 31735, 31785, 31833, 31880, 31926, 31970, 32014, 32056, 32097]
    case 14 => [32137, 32176, 32213, 32249, 32284, 32318, 32350, 32382, 32412, 32441, 32468, 32495, 32520, 32544, 32567, 32588]
    case _ => [32609, 32628, 32646, 32662, 32678, 32692, 32705, 32717, 32727, 32736, 32744, 32751, 32757, 32761, 32764, 32766]
  }

  /** The table entries, from 0 to 257. */
  function Entry(i: nat): int
    requires i <= 257
  {
    if i == 0 then -201 else if i == 257 then 32767 else Row((i - 1) / 16)[(i - 1) % 16]
  }

  /** The entry behind a row. */
  function Top(k: nat): int
    requires k < 16
  {
    if k < 15 then Row(k + 1)[0] else 32767
  }

  predicate Rises(row: seq<int>, top: int) {
    && |row| == 16 && 0 <= row[0] && row[15] < top <= 32767
    && forall i :: 0 <= i < 15 ==> row[i] < row[i + 1]
  }

  lemma Row0Rises()
    ensures Rises(Row(0), Top(0))
  {
  }

  lemma Row1Rises()
    ensures Rises(Row(1), Top(1))
  {
  }

  lemma Row2Rises()
    ensures Rises(Row(2), Top(2))
  {
  }

  lemma Row3Rises()
    ensures Rises(Row(3), Top(3))
  {
  }

  lemma Row4Rises()
    ensures Rises(Row(4), Top(4))
  {
  }

  lemma Row5Rises()
    ensures Rises(Row(5), Top(5))
  {
  }

  lemma Row6Rises()
    ensures Rises(Row(6), Top(6))
  {
  }

  lemma Row7Rises()
    ensures Rises(Row(7), Top(7))
  {
  }

  lemma Row8Rises()
    ensures Rises(Row(8), Top(8))
  {
  }

  lemma Row9Rises()
    ensures Rises(Row(9), Top(9))
  {
  }

  lemma Row10Rises()
    ensures Rises(Row(10), Top(10))
  {
  }

  lemma Row11Rises()
    ensures Rises(Row(11), Top(11))
  {
  }

  lemma Row12Rises()
    ensures Rises(Row(12), Top(12))
  {
  }

  lemma Row13Rises()
    ensures Rises(Row(13), Top(13))
  {
  }

  lemma Row14Rises()
    ensures Rises(Row(14), Top(14))
  {
  }

  lemma Row15Rises()
    ensures Rises(Row(15), Top(15))
  {
  }

  lemma RowRises(k: nat)
    requires k < 16
    ensures Rises(Row(k), Top(k))
  {
    hide Row, Rises, Top;
    match k
    case 0 => Row0Rises();
    case 1 => Row1Rises();
    case 2 => Row2Rises();
    case 3 => Row3Rises();
    case 4 => Row4Rises();
    case 5 => Row5Rises();
    case 6 => Row6Rises();
    case 7 => Row7Rises();
    case 8 => Row8Rises();
    case 9 => Row9Rises();
    case 10 => Row10Rises();
    case 11 => Row11Rises();
    case 12 => Row12Rises();
    case 13 => Row13Rises();
    case 14 => Row14Rises();
    case 15 => Row15Rises();
  }

  /** From entry 1 to entry 257 the table rises from 0 to the top. */
  lemma EntryRises(i: nat)
    requires 1 <= i < 257
    ensures 0 <= Entry(i) < Entry(i + 1) <= 32767
  {
    hide Row;
    var k, j := (i - 1) / 16, (i - 1) % 16;
    RowRises(k);
    RowStarts(k);
    if j < 15 {
      assert i / 16 == k && i % 16 == j + 1;
      RowGrows(Row(k), Top(k), j);
      RowGrows(Row(k), Top(k), j + 1);
    } else {
      assert i / 16 == k + 1 && i % 16 == 0;
      RowGrows(Row(k), Top(k), j);
    }
  }

  lemma RowStarts(k: nat)
    requires k < 16
    ensures Top(k) <= 32767
  {
    RowRises(k);
  }

  lemma {:induction false} RowGrows(row: seq<int>, top: int, j: nat)
    requires Rises(row, top) && j < 16
    ensures row[0] <= row[j] < top
    ensures j < 15 ==> row[j] < row[j + 1]
  {
    RowGrowsTo(row, top, 0, j);
    RowGrowsTo(row, top, j, 15);
  }

  lemma {:induction false} RowGrowsTo(row: seq<int>, top: int, i: nat, j: nat)
    requires Rises(row, top) && i <= j < 16
    ensures row[i] <= row[j]
    decreases j - i
  {
    if i < j {
      RowGrowsTo(row, top, i, j - 1);
      assert row[j - 1] < row[j - 1 + 1];
    }
  }
}
