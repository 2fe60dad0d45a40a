/**
 The mask patterns as pictures: what repeats over the symbol, as table 10 of ISO/IEC 18004 has it.
 */
module MaskPictures {
  import opened Masking

  /** The rows of one period, from the top; # inverts. */
  function Picture(mask: int): (rows: seq<string>)
    requires 0 <= mask <= 7
    ensures |rows| > 0
    ensures forall j :: 0 <= j < |rows| ==> |rows[j]| == PictureWidth(mask)
  {
    match mask
    case 0 => ["#.", ".#"]
    case 1 => ["#", "."]
    case 2 => ["#.."]
    case 3 => ["#..", "..#", ".#."]
    case 4 => ["###...", "###...", "...###", "...###"]
    case 5 => ["######", "#.....", "#..#..", "#.#.#.", "#..#..", "#....."]
    case 6 => ["######", "###...", "##.##.", "#.#.#.", "#.##.#", "#...##"]
    case _ => ["#.#.#.", "...###", "#...##", ".#.#.#", "###...", ".###.."]
  }

  function PictureWidth(mask: int): nat
    requires 0 <= mask <= 7
    ensures PictureWidth(mask) > 0
  {
    match mask
    case 0 => 2
    case 1 => 1
    case 2 => 3
    case 3 => 3
    case 4 => 6
    case 5 => 6
    case 6 => 6
    case _ => 6
  }

  predicate InPicture(mask: int, i: nat, j: nat)
    requires 0 <= mask <= 7
  {
    var rows := Picture(mask);
    j < |rows| && i < PictureWidth(mask) && rows[j][i] == '#'
  }

  lemma Picture0(i: nat, j: nat)
    requires i < 2 && j < 2
    ensures Inverts(0, i, j) <==> InPicture(0, i, j)
  {
    if j == 0 {
      assert i == 0 || i == 1;
    } else if j == 1 {
      assert i == 0 || i == 1;
    }
  }

  lemma Picture1(i: nat, j: nat)
    requires i < 1 && j < 2
    ensures Inverts(1, i, j) <==> InPicture(1, i, j)
  {
    if j == 0 {
    } else if j == 1 {
    }
  }

  lemma Picture2(i: nat, j: nat)
    requires i < 3 && j < 1
    ensures Inverts(2, i, j) <==> InPicture(2, i, j)
  {
    assert i == 0 || i == 1 || i == 2;
  }

  lemma Picture3(i: nat, j: nat)
    requires i < 3 && j < 3
    ensures Inverts(3, i, j) <==> InPicture(3, i, j)
  {
    if j == 0 {
      assert i == 0 || i == 1 || i == 2;
    } else if j == 1 {
      assert i == 0 || i == 1 || i == 2;
    } else if j == 2 {
      assert i == 0 || i == 1 || i == 2;
    }
  }

  lemma Picture4(i: nat, j: nat)
    requires i < 6 && j < 4
    ensures Inverts(4, i, j) <==> InPicture(4, i, j)
  {
    if j == 0 {
      assert i == 0 || i == 1 || i == 2 || i == 3 || i == 4 || i == 5;
    } else if j == 1 {
      assert i == 0 || i == 1 || i == 2 || i == 3 || i == 4 || i == 5;
    } else if j == 2 {
      assert i == 0 || i == 1 || i == 2 || i == 3 || i == 4 || i == 5;
    } else if j == 3 {
      assert i == 0 || i == 1 || i == 2 || i == 3 || i == 4 || i == 5;
    }
  }

  lemma Picture5Top(i: nat, j: nat)
    requires i < 6 && 0 <= j < 3
    ensures Inverts(5, i, j) <==> InPicture(5, i, j)
  {
    hide Inverts;
    InvertsByParts(5, i, j);
    assert i == 0 || i == 1 || i == 2 || i == 3 || i == 4 || i == 5;
    if j == 0 {
      assert i * j == 0;
    } else if j == 1 {
      assert i * j == i;
    } else if j == 2 {
      assert i * j == 2 * i;
    }
  }

  lemma Picture5Bottom(i: nat, j: nat)
    requires i < 6 && 3 <= j < 6
    ensures Inverts(5, i, j) <==> InPicture(5, i, j)
  {
    hide Inverts;
    InvertsByParts(5, i, j);
    assert i == 0 || i == 1 || i == 2 || i == 3 || i == 4 || i == 5;
    if j == 3 {
      assert i * j == 3 * i;
    } else if j == 4 {
      assert i * j == 4 * i;
    } else if j == 5 {
      assert i * j == 5 * i;
    }
  }

  lemma Picture6Top(i: nat, j: nat)
    requires i < 6 && 0 <= j < 3
    ensures Inverts(6, i, j) <==> InPicture(6, i, j)
  {
    hide Inverts;
    InvertsByParts(6, i, j);
    assert i == 0 || i == 1 || i == 2 || i == 3 || i == 4 || i == 5;
    if j == 0 {
      assert i * j == 0;
    } else if j == 1 {
      assert i * j == i;
    } else if j == 2 {
      assert i * j == 2 * i;
    }
  }

  lemma Picture6Bottom(i: nat, j: nat)
    requires i < 6 && 3 <= j < 6
    ensures Inverts(6, i, j) <==> InPicture(6, i, j)
  {
    hide Inverts;
    InvertsByParts(6, i, j);
    assert i == 0 || i == 1 || i == 2 || i == 3 || i == 4 || i == 5;
    if j == 3 {
      assert i * j == 3 * i;
    } else if j == 4 {
      assert i * j == 4 * i;
    } else if j == 5 {
      assert i * j == 5 * i;
    }
  }

  lemma Picture7Top(i: nat, j: nat)
    requires i < 6 && 0 <= j < 3
    ensures Inverts(7, i, j) <==> InPicture(7, i, j)
  {
    hide Inverts;
    InvertsByParts(7, i, j);
    assert i == 0 || i == 1 || i == 2 || i == 3 || i == 4 || i == 5;
    if j == 0 {
      assert i * j == 0;
    } else if j == 1 {
      assert i * j == i;
    } else if j == 2 {
      assert i * j == 2 * i;
    }
  }

  lemma Picture7Bottom(i: nat, j: nat)
    requires i < 6 && 3 <= j < 6
    ensures Inverts(7, i, j) <==> InPicture(7, i, j)
  {
    hide Inverts;
    InvertsByParts(7, i, j);
    assert i == 0 || i == 1 || i == 2 || i == 3 || i == 4 || i == 5;
    if j == 3 {
      assert i * j == 3 * i;
    } else if j == 4 {
      assert i * j == 4 * i;
    } else if j == 5 {
      assert i * j == 5 * i;
    }
  }

  lemma ProductParts(x: nat, y: nat) returns (k: nat)
    ensures x * y == (x % 6) * (y % 6) + 6 * k
  {
    var a, i, b, j := x / 6, x % 6, y / 6, y % 6;
    k := 6 * (a * b) + a * j + b * i;
    assert x == 6 * a + i && y == 6 * b + j;
    Expand(a, i, b, j);
  }

  lemma Expand(a: int, i: int, b: int, j: int)
    ensures (6 * a + i) * (6 * b + j) == 36 * (a * b) + 6 * (a * j) + 6 * (b * i) + i * j
  {
  }

  lemma TwosDrop(q: nat, d: nat)
    ensures (q + 2 * d) % 2 == q % 2
  {
  }

  lemma ThreesDrop(q: nat, d: nat)
    ensures (q + 3 * d) % 3 == q % 3
  {
  }

  lemma SixesDrop(q: nat, k: nat)
    ensures (q + 6 * k) % 2 == q % 2 && (q + 6 * k) % 3 == q % 3
  {
    TwosDrop(q, 3 * k);
    ThreesDrop(q, 2 * k);
  }

  lemma ProductModulo(x: nat, y: nat)
    ensures x * y % 2 == (x % 6) * (y % 6) % 2 && x * y % 3 == (x % 6) * (y % 6) % 3
  {
    var k := ProductParts(x, y);
    SixesDrop((x % 6) * (y % 6), k);
  }

  lemma SumModulo(x: nat, y: nat)
    ensures (x + y) % 2 == (x % 2 + y % 2) % 2 && (x + y) % 3 == (x % 3 + y % 3) % 3
  {
    TwosDrop(x % 2 + y % 2, x / 2 + y / 2);
    ThreesDrop(x % 3 + y % 3, x / 3 + y / 3);
    assert x == x % 2 + 2 * (x / 2) && y == y % 2 + 2 * (y / 2);
    assert x == x % 3 + 3 * (x / 3) && y == y % 3 + 3 * (y / 3);
  }

  lemma SumOfSixes(x: nat, y: nat)
    ensures (x + y) % 2 == (x % 6 + y % 6) % 2
  {
    SixesDrop(x % 6 + y % 6, x / 6 + y / 6);
    assert x == x % 6 + 6 * (x / 6) && y == y % 6 + 6 * (y / 6);
  }

  lemma BlocksModulo(x: nat, y: nat)
    ensures (x / 3 + y / 2) % 2 == (x % 6 / 3 + y % 4 / 2) % 2
  {
    var a, i, b, j := x / 6, x % 6, y / 4, y % 4;
    assert x / 3 == 2 * a + i / 3 && y / 2 == 2 * b + j / 2;
  }

  /** What masks 5 to 7 look at: the product and the sum of the coordinates. */
  predicate InvertsBy(mask: int, product: nat, sum: nat) {
    if mask == 5 then product % 2 + product % 3 == 0
    else if mask == 6 then (product % 2 + product % 3) % 2 == 0
    else (sum % 2 + product % 3) % 2 == 0
  }

  lemma InvertsByParts(mask: int, x: nat, y: nat)
    requires 5 <= mask <= 7
    ensures Inverts(mask, x, y) <==> InvertsBy(mask, x * y, x + y)
  {
  }

  lemma SameParts(mask: int, p: nat, s: nat, q: nat, t: nat)
    requires p % 2 == q % 2 && p % 3 == q % 3 && s % 2 == t % 2
    ensures InvertsBy(mask, p, s) <==> InvertsBy(mask, q, t)
  {
  }

  lemma ProductRepeats(mask: int, x: nat, y: nat)
    requires 5 <= mask <= 7
    ensures Inverts(mask, x, y) <==> Inverts(mask, x % 6, y % 6)
  {
    hide Inverts, InvertsBy;
    InvertsByParts(mask, x, y);
    InvertsByParts(mask, x % 6, y % 6);
    SumOfSixes(x, y);
    ProductModulo(x, y);
    SameParts(mask, x * y, x + y, (x % 6) * (y % 6), x % 6 + y % 6);
  }

  lemma SumRepeats(x: nat, y: nat)
    ensures Inverts(0, x, y) <==> Inverts(0, x % 2, y % 2)
    ensures Inverts(3, x, y) <==> Inverts(3, x % 3, y % 3)
  {
    SumModulo(x, y);
  }

  lemma LineRepeats(x: nat, y: nat)
    ensures Inverts(1, x, y) <==> Inverts(1, x % 1, y % 2)
    ensures Inverts(2, x, y) <==> Inverts(2, x % 3, y % 1)
  {
  }

  lemma BlocksRepeat(x: nat, y: nat)
    ensures Inverts(4, x, y) <==> Inverts(4, x % 6, y % 4)
  {
    BlocksModulo(x, y);
  }

  /** The pattern depends on the place within the period only. */
  lemma Repeats(mask: int, x: nat, y: nat)
    requires 0 <= mask <= 7
    ensures Inverts(mask, x, y) <==> Inverts(mask, x % PictureWidth(mask), y % |Picture(mask)|)
  {
    hide Inverts;
    if mask >= 5 {
      ProductRepeats(mask, x, y);
    } else if mask == 4 {
      BlocksRepeat(x, y);
    } else {
      SumRepeats(x, y);
      LineRepeats(x, y);
    }
  }

  lemma PictureIs(mask: int, i: nat, j: nat)
    requires 0 <= mask <= 7 && i < PictureWidth(mask) && j < |Picture(mask)|
    ensures Inverts(mask, i, j) <==> InPicture(mask, i, j)
  {
    hide InPicture, Inverts;
    match mask
    case 0 => Picture0(i, j);
    case 1 => Picture1(i, j);
    case 2 => Picture2(i, j);
    case 3 => Picture3(i, j);
    case 4 => Picture4(i, j);
    case 5 =>
      if j < 3 {
        Picture5Top(i, j);
      } else {
        Picture5Bottom(i, j);
      }
    case 6 =>
      if j < 3 {
        Picture6Top(i, j);
      } else {
        Picture6Bottom(i, j);
      }
    case _ =>
      if j < 3 {
        Picture7Top(i, j);
      } else {
        Picture7Bottom(i, j);
      }
  }

  /** Every mask repeats its picture over the whole symbol. */
  lemma InvertsAsPictured(mask: int, x: nat, y: nat)
    requires 0 <= mask <= 7
    ensures Inverts(mask, x, y) <==> InPicture(mask, x % PictureWidth(mask), y % |Picture(mask)|)
  {
    hide InPicture, Inverts, Picture, PictureWidth;
    Repeats(mask, x, y);
    PictureIs(mask, x % PictureWidth(mask), y % |Picture(mask)|);
  }
}
