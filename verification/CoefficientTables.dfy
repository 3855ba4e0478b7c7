/**
 The two coefficient tables of Share/Compare.hpp and what they interpolate.

 Evaluating a table means multiplying 64-bit literals, which the verifier does quickly for
 `real` literals and hardly at all for `int` ones.  So each table is also written out as a
 polynomial over the reals; TableRow and WrittenOut prove the two forms equal at every
 integer, and the 65 points are then evaluated in the real form.
 */
module CoefficientTables {
  import opened PrimeModulus

  /** f_65_or_coefficient. */
  const OR_TABLE: seq<int> :=
    [18446744073709551493, 2575104960981055254, 4007652756006865783, 4100635666949508952,
     13520771370602560384, 10644542489970931539, 13748537863183121296, 11359914866391222416] +
    [11247219807349180267, 10960075435459066463, 16764588636202349672, 17506652363315270202,
     16166875542546532309, 3964617125041583173, 11719255904316824165, 10424936898019828672] +
    [4205127743406738449, 14520034406506226582, 13839012095455519695, 10500139574289659412,
     2962336181382223452, 6767675871271430215, 6933421926280334339, 15958841553693851655] +
    [15160740279984758829, 7422142630459751295, 8493480566397125402, 5197722549818600602,
     14735780618044279429, 1253747699690153233, 16331314050017923346, 8939522708637072316] +
    [14886963398089785966, 9073751420990236602, 12505410719513991034, 2125245660187079351,
     15846075763828250700, 3886182126918060030, 8108428213219044342, 7230779232974847667] +
    [16872135629383927467, 6378144199063646497, 17663587804867607672, 16148746862917335565,
     15537620600452524460, 5258026759045415754, 13903054235566673560, 13960238641761739087] +
    [17636644537631434137, 14478303024279957496, 2874963986830092253, 3027861925099033411,
     3827102190137661457, 12528878074288803348, 5215393447045447612, 9586533887964671917] +
    [3356091034157294274, 2902984712153508625, 6333090465997358509, 9996528576620247823,
     11806089667835996467, 15792408873328964335, 14951514151164516184, 2230240327554514938] +
    [17774600287293087221]

  /** f_65_and_coefficient. */
  const AND_TABLE: seq<int> :=
    [1, 1095567251290110014, 15603599130927532848, 3927973679664754768,
     13253920145236317331, 5072689204291235733, 3435840349470671764, 16549778763406408630] +
    [12459576446030141042, 10696557716079594807, 3197018912709867365, 9970630734852788482,
     10106868463622397398, 6870526778099185113, 16162773849234898198, 6512084038109877353] +
    [17791231165580233294, 4939553442392971102, 6613779837673282520, 6112835044719072700,
     11561852329015516476, 3241087653075867336, 11115359391888299599, 1734929295488186025] +
    [11958404333307668373, 1438215050425705879, 11073690707525551423, 17532628264929026480,
     6082710703763137390, 5125529121156609847, 3536240549677738615, 168123567554747533] +
    [17222647251913610444, 6314115150414057577, 5720266728093558989, 11315745394801430483,
     13585209705064903598, 10609659846084906928, 6341781282790677798, 394864220565298862] +
    [5249871464994426133, 13296832158245447365, 12801767259528789327, 8166545265620715462,
     12622067858020089155, 10852787575795086238, 15358952924301378654, 14141418894305759068] +
    [13215619082908852856, 9900973216959770499, 11398882017370494561, 1875791515713213273,
     18179510337970552075, 12349041994205078879, 4559441349647564738, 4543633939816633313] +
    [9247229033112764012, 9230709934058803069, 12860062884571458050, 14898881793951465380,
     9282848170176021024, 16257860633325038337, 546853837372292893, 3893473855680099452] +
    [672143786416464336]

  /** Eight steps of Horner's rule. */
  function Eight(x: real, y: real, c0: real, c1: real, c2: real, c3: real, c4: real, c5: real, c6: real, c7: real): real {
    c0 + x * (c1 + x * (c2 + x * (c3 + x * (c4 + x * (c5 + x * (c6 + x * (c7 + x * y)))))))
  }

  /** A delay of three keeps the solver from unfolding the polynomials at an x that is no literal. */
  function OrPolynomial(x: real, delay: nat): real
    decreases delay, x
  {
    if delay > 0 then OrPolynomial(x, delay - 1)
    else
    Eight(x, Eight(x, Eight(x, Eight(x, Eight(x, Eight(x, Eight(x, Eight(x, 17774600287293087221.0,
      3356091034157294274.0, 2902984712153508625.0, 6333090465997358509.0, 9996528576620247823.0,
      11806089667835996467.0, 15792408873328964335.0, 14951514151164516184.0, 2230240327554514938.0),
      17636644537631434137.0, 14478303024279957496.0, 2874963986830092253.0, 3027861925099033411.0,
      3827102190137661457.0, 12528878074288803348.0, 5215393447045447612.0, 9586533887964671917.0),
      16872135629383927467.0, 6378144199063646497.0, 17663587804867607672.0, 16148746862917335565.0,
      15537620600452524460.0, 5258026759045415754.0, 13903054235566673560.0, 13960238641761739087.0),
      14886963398089785966.0, 9073751420990236602.0, 12505410719513991034.0, 2125245660187079351.0,
      15846075763828250700.0, 3886182126918060030.0, 8108428213219044342.0, 7230779232974847667.0),
      15160740279984758829.0, 7422142630459751295.0, 8493480566397125402.0, 5197722549818600602.0,
      14735780618044279429.0, 1253747699690153233.0, 16331314050017923346.0, 8939522708637072316.0),
      4205127743406738449.0, 14520034406506226582.0, 13839012095455519695.0, 10500139574289659412.0,
      2962336181382223452.0, 6767675871271430215.0, 6933421926280334339.0, 15958841553693851655.0),
      11247219807349180267.0, 10960075435459066463.0, 16764588636202349672.0, 17506652363315270202.0,
      16166875542546532309.0, 3964617125041583173.0, 11719255904316824165.0, 10424936898019828672.0),
      18446744073709551493.0, 2575104960981055254.0, 4007652756006865783.0, 4100635666949508952.0,
      13520771370602560384.0, 10644542489970931539.0, 13748537863183121296.0, 11359914866391222416.0)
  }

  function AndPolynomial(x: real, delay: nat): real
    decreases delay, x
  {
    if delay > 0 then AndPolynomial(x, delay - 1)
    else
    Eight(x, Eight(x, Eight(x, Eight(x, Eight(x, Eight(x, Eight(x, Eight(x, 672143786416464336.0,
      9247229033112764012.0, 9230709934058803069.0, 12860062884571458050.0, 14898881793951465380.0,
      9282848170176021024.0, 16257860633325038337.0, 546853837372292893.0, 3893473855680099452.0),
      13215619082908852856.0, 9900973216959770499.0, 11398882017370494561.0, 1875791515713213273.0,
      18179510337970552075.0, 12349041994205078879.0, 4559441349647564738.0, 4543633939816633313.0),
      5249871464994426133.0, 13296832158245447365.0, 12801767259528789327.0, 8166545265620715462.0,
      12622067858020089155.0, 10852787575795086238.0, 15358952924301378654.0, 14141418894305759068.0),
      17222647251913610444.0, 6314115150414057577.0, 5720266728093558989.0, 11315745394801430483.0,
      13585209705064903598.0, 10609659846084906928.0, 6341781282790677798.0, 394864220565298862.0),
      11958404333307668373.0, 1438215050425705879.0, 11073690707525551423.0, 17532628264929026480.0,
      6082710703763137390.0, 5125529121156609847.0, 3536240549677738615.0, 168123567554747533.0),
      17791231165580233294.0, 4939553442392971102.0, 6613779837673282520.0, 6112835044719072700.0,
      11561852329015516476.0, 3241087653075867336.0, 11115359391888299599.0, 1734929295488186025.0),
      12459576446030141042.0, 10696557716079594807.0, 3197018912709867365.0, 9970630734852788482.0,
      10106868463622397398.0, 6870526778099185113.0, 16162773849234898198.0, 6512084038109877353.0),
      1.0, 1095567251290110014.0, 15603599130927532848.0, 3927973679664754768.0,
      13253920145236317331.0, 5072689204291235733.0, 3435840349470671764.0, 16549778763406408630.0)
  }

  /** c[i] + c[i+1] x + c[i+2] x^2 + ... */
  function Polynomial(c: seq<int>, i: nat, x: int): int
    requires i <= |c|
    decreases |c| - i
  {
    if i == |c| then 0 else c[i] + x * Polynomial(c, i + 1, x)
  }

  lemma Substitute(c: real, x: real, t: real, u: real)
    requires t == u
    ensures c + x * t == c + x * u
  {
  }

  lemma HornerStep(c: seq<int>, i: nat, x: int)
    requires i < |c|
    ensures Polynomial(c, i, x) as real == c[i] as real + x as real * Polynomial(c, i + 1, x) as real
  {
    RealProduct(x, Polynomial(c, i + 1, x));
  }

  lemma FoldEight(x: real, y: real, c0: real, c1: real, c2: real, c3: real, c4: real, c5: real, c6: real, c7: real,
                  t0: real, t1: real, t2: real, t3: real, t4: real, t5: real, t6: real, t7: real)
    requires t0 == c0 + x * t1 && t1 == c1 + x * t2 && t2 == c2 + x * t3 && t3 == c3 + x * t4
    requires t4 == c4 + x * t5 && t5 == c5 + x * t6 && t6 == c6 + x * t7 && t7 == c7 + x * y
    ensures t0 == Eight(x, y, c0, c1, c2, c3, c4, c5, c6, c7)
  {
    Substitute(c6, x, t7, c7 + x * y);
    Substitute(c5, x, t6, c6 + x * (c7 + x * y));
    Substitute(c4, x, t5, c5 + x * (c6 + x * (c7 + x * y)));
    Substitute(c3, x, t4, c4 + x * (c5 + x * (c6 + x * (c7 + x * y))));
    Substitute(c2, x, t3, c3 + x * (c4 + x * (c5 + x * (c6 + x * (c7 + x * y)))));
    Substitute(c1, x, t2, c2 + x * (c3 + x * (c4 + x * (c5 + x * (c6 + x * (c7 + x * y))))));
    Substitute(c0, x, t1, c1 + x * (c2 + x * (c3 + x * (c4 + x * (c5 + x * (c6 + x * (c7 + x * y)))))));
  }

  lemma TableRow(c: seq<int>, i: nat, x: int)
    requires i + 8 <= |c|
    ensures Polynomial(c, i, x) as real
         == Eight(x as real, Polynomial(c, i + 8, x) as real,
                  c[i] as real, c[i + 1] as real, c[i + 2] as real, c[i + 3] as real,
                  c[i + 4] as real, c[i + 5] as real, c[i + 6] as real, c[i + 7] as real)
  {
    HornerStep(c, i + 0, x);
    HornerStep(c, i + 1, x);
    HornerStep(c, i + 2, x);
    HornerStep(c, i + 3, x);
    HornerStep(c, i + 4, x);
    HornerStep(c, i + 5, x);
    HornerStep(c, i + 6, x);
    HornerStep(c, i + 7, x);
    FoldEight(x as real, Polynomial(c, i + 8, x) as real,
      c[i + 0] as real, c[i + 1] as real, c[i + 2] as real, c[i + 3] as real, c[i + 4] as real, c[i + 5] as real, c[i + 6] as real, c[i + 7] as real,
      Polynomial(c, i + 0, x) as real, Polynomial(c, i + 1, x) as real, Polynomial(c, i + 2, x) as real, Polynomial(c, i + 3, x) as real, Polynomial(c, i + 4, x) as real, Polynomial(c, i + 5, x) as real, Polynomial(c, i + 6, x) as real, Polynomial(c, i + 7, x) as real);
  }

  lemma OrWrittenOut(x: int)
    ensures |OR_TABLE| == 65
    ensures Polynomial(OR_TABLE, 0, x) as real == OrPolynomial(x as real, 3)
  {
    var c := OR_TABLE;
    assert OrPolynomial(x as real, 3) == OrPolynomial(x as real, 2) == OrPolynomial(x as real, 1)
        == OrPolynomial(x as real, 0);
    HornerStep(c, 64, x);
    TableRow(c, 56, x);
    TableRow(c, 48, x);
    TableRow(c, 40, x);
    TableRow(c, 32, x);
    TableRow(c, 24, x);
    TableRow(c, 16, x);
    TableRow(c, 8, x);
    TableRow(c, 0, x);
  }

  lemma AndWrittenOut(x: int)
    ensures |AND_TABLE| == 65
    ensures Polynomial(AND_TABLE, 0, x) as real == AndPolynomial(x as real, 3)
  {
    var c := AND_TABLE;
    assert AndPolynomial(x as real, 3) == AndPolynomial(x as real, 2) == AndPolynomial(x as real, 1)
        == AndPolynomial(x as real, 0);
    HornerStep(c, 64, x);
    TableRow(c, 56, x);
    TableRow(c, 48, x);
    TableRow(c, 40, x);
    TableRow(c, 32, x);
    TableRow(c, 24, x);
    TableRow(c, 16, x);
    TableRow(c, 8, x);
    TableRow(c, 0, x);
  }

  // ---------- the 65 points ----------

  predicate OrOnes(x: real, count: nat)
    decreases count, x
  {
    count == 0 || (Residue(OrPolynomial(x, 3), 18446744073709551557.0) == 1.0 && OrOnes(x + 1.0, count - 1))
  }

  predicate AndZeros(x: real, count: nat)
    decreases count, x
  {
    count == 0 || (Residue(AndPolynomial(x, 3), 18446744073709551557.0) == 0.0 && AndZeros(x + 1.0, count - 1))
  }

  lemma {:induction false} OrOnesAt(first: int, count: nat, x: int)
    requires OrOnes(first as real, count) && first <= x < first + count
    ensures Polynomial(OR_TABLE, 0, x) % P == 1
    decreases count
  {
    if x == first {
      OrWrittenOut(x);
      ResidueIsMod(Polynomial(OR_TABLE, 0, x), P);
    } else {
      assert (first + 1) as real == first as real + 1.0;
      OrOnesAt(first + 1, count - 1, x);
    }
  }

  lemma {:induction false} AndZerosAt(first: int, count: nat, x: int)
    requires AndZeros(first as real, count) && first <= x < first + count
    ensures Polynomial(AND_TABLE, 0, x) % P == 0
    decreases count
  {
    if x == first {
      AndWrittenOut(x);
      ResidueIsMod(Polynomial(AND_TABLE, 0, x), P);
    } else {
      assert (first + 1) as real == first as real + 1.0;
      AndZerosAt(first + 1, count - 1, x);
    }
  }

  lemma OrFrom2(x: int)
    requires 2 <= x < 10
    ensures Polynomial(OR_TABLE, 0, x) % P == 1
  {
    if x < 4 {
      assert OrOnes(2.0, 2);
      OrOnesAt(2, 2, x);
    } else if x < 6 {
      assert OrOnes(4.0, 2);
      OrOnesAt(4, 2, x);
    } else if x < 8 {
      assert OrOnes(6.0, 2);
      OrOnesAt(6, 2, x);
    } else {
      assert OrOnes(8.0, 2);
      OrOnesAt(8, 2, x);
    }
  }

  lemma OrFrom10(x: int)
    requires 10 <= x < 18
    ensures Polynomial(OR_TABLE, 0, x) % P == 1
  {
    if x < 12 {
      assert OrOnes(10.0, 2);
      OrOnesAt(10, 2, x);
    } else if x < 14 {
      assert OrOnes(12.0, 2);
      OrOnesAt(12, 2, x);
    } else if x < 16 {
      assert OrOnes(14.0, 2);
      OrOnesAt(14, 2, x);
    } else {
      assert OrOnes(16.0, 2);
      OrOnesAt(16, 2, x);
    }
  }

  lemma OrFrom18(x: int)
    requires 18 <= x < 26
    ensures Polynomial(OR_TABLE, 0, x) % P == 1
  {
    if x < 20 {
      assert OrOnes(18.0, 2);
      OrOnesAt(18, 2, x);
    } else if x < 22 {
      assert OrOnes(20.0, 2);
      OrOnesAt(20, 2, x);
    } else if x < 24 {
      assert OrOnes(22.0, 2);
      OrOnesAt(22, 2, x);
    } else {
      assert OrOnes(24.0, 2);
      OrOnesAt(24, 2, x);
    }
  }

  lemma OrFrom26(x: int)
    requires 26 <= x < 34
    ensures Polynomial(OR_TABLE, 0, x) % P == 1
  {
    if x < 28 {
      assert OrOnes(26.0, 2);
      OrOnesAt(26, 2, x);
    } else if x < 30 {
      assert OrOnes(28.0, 2);
      OrOnesAt(28, 2, x);
    } else if x < 32 {
      assert OrOnes(30.0, 2);
      OrOnesAt(30, 2, x);
    } else {
      assert OrOnes(32.0, 2);
      OrOnesAt(32, 2, x);
    }
  }

  lemma OrFrom34(x: int)
    requires 34 <= x < 42
    ensures Polynomial(OR_TABLE, 0, x) % P == 1
  {
    if x < 36 {
      assert OrOnes(34.0, 2);
      OrOnesAt(34, 2, x);
    } else if x < 38 {
      assert OrOnes(36.0, 2);
      OrOnesAt(36, 2, x);
    } else if x < 40 {
      assert OrOnes(38.0, 2);
      OrOnesAt(38, 2, x);
    } else {
      assert OrOnes(40.0, 2);
      OrOnesAt(40, 2, x);
    }
  }

  lemma OrFrom42(x: int)
    requires 42 <= x < 50
    ensures Polynomial(OR_TABLE, 0, x) % P == 1
  {
    if x < 44 {
      assert OrOnes(42.0, 2);
      OrOnesAt(42, 2, x);
    } else if x < 46 {
      assert OrOnes(44.0, 2);
      OrOnesAt(44, 2, x);
    } else if x < 48 {
      assert OrOnes(46.0, 2);
      OrOnesAt(46, 2, x);
    } else {
      assert OrOnes(48.0, 2);
      OrOnesAt(48, 2, x);
    }
  }

  lemma OrFrom50(x: int)
    requires 50 <= x < 58
    ensures Polynomial(OR_TABLE, 0, x) % P == 1
  {
    if x < 52 {
      assert OrOnes(50.0, 2);
      OrOnesAt(50, 2, x);
    } else if x < 54 {
      assert OrOnes(52.0, 2);
      OrOnesAt(52, 2, x);
    } else if x < 56 {
      assert OrOnes(54.0, 2);
      OrOnesAt(54, 2, x);
    } else {
      assert OrOnes(56.0, 2);
      OrOnesAt(56, 2, x);
    }
  }

  lemma OrFrom58(x: int)
    requires 58 <= x < 66
    ensures Polynomial(OR_TABLE, 0, x) % P == 1
  {
    if x < 60 {
      assert OrOnes(58.0, 2);
      OrOnesAt(58, 2, x);
    } else if x < 62 {
      assert OrOnes(60.0, 2);
      OrOnesAt(60, 2, x);
    } else if x < 64 {
      assert OrOnes(62.0, 2);
      OrOnesAt(62, 2, x);
    } else {
      assert OrOnes(64.0, 2);
      OrOnesAt(64, 2, x);
    }
  }

  lemma AndFrom1(x: int)
    requires 1 <= x < 9
    ensures Polynomial(AND_TABLE, 0, x) % P == 0
  {
    if x < 3 {
      assert AndZeros(1.0, 2);
      AndZerosAt(1, 2, x);
    } else if x < 5 {
      assert AndZeros(3.0, 2);
      AndZerosAt(3, 2, x);
    } else if x < 7 {
      assert AndZeros(5.0, 2);
      AndZerosAt(5, 2, x);
    } else {
      assert AndZeros(7.0, 2);
      AndZerosAt(7, 2, x);
    }
  }

  lemma AndFrom9(x: int)
    requires 9 <= x < 17
    ensures Polynomial(AND_TABLE, 0, x) % P == 0
  {
    if x < 11 {
      assert AndZeros(9.0, 2);
      AndZerosAt(9, 2, x);
    } else if x < 13 {
      assert AndZeros(11.0, 2);
      AndZerosAt(11, 2, x);
    } else if x < 15 {
      assert AndZeros(13.0, 2);
      AndZerosAt(13, 2, x);
    } else {
      assert AndZeros(15.0, 2);
      AndZerosAt(15, 2, x);
    }
  }

  lemma AndFrom17(x: int)
    requires 17 <= x < 25
    ensures Polynomial(AND_TABLE, 0, x) % P == 0
  {
    if x < 19 {
      assert AndZeros(17.0, 2);
      AndZerosAt(17, 2, x);
    } else if x < 21 {
      assert AndZeros(19.0, 2);
      AndZerosAt(19, 2, x);
    } else if x < 23 {
      assert AndZeros(21.0, 2);
      AndZerosAt(21, 2, x);
    } else {
      assert AndZeros(23.0, 2);
      AndZerosAt(23, 2, x);
    }
  }

  lemma AndFrom25(x: int)
    requires 25 <= x < 33
    ensures Polynomial(AND_TABLE, 0, x) % P == 0
  {
    if x < 27 {
      assert AndZeros(25.0, 2);
      AndZerosAt(25, 2, x);
    } else if x < 29 {
      assert AndZeros(27.0, 2);
      AndZerosAt(27, 2, x);
    } else if x < 31 {
      assert AndZeros(29.0, 2);
      AndZerosAt(29, 2, x);
    } else {
      assert AndZeros(31.0, 2);
      AndZerosAt(31, 2, x);
    }
  }

  lemma AndFrom33(x: int)
    requires 33 <= x < 41
    ensures Polynomial(AND_TABLE, 0, x) % P == 0
  {
    if x < 35 {
      assert AndZeros(33.0, 2);
      AndZerosAt(33, 2, x);
    } else if x < 37 {
      assert AndZeros(35.0, 2);
      AndZerosAt(35, 2, x);
    } else if x < 39 {
      assert AndZeros(37.0, 2);
      AndZerosAt(37, 2, x);
    } else {
      assert AndZeros(39.0, 2);
      AndZerosAt(39, 2, x);
    }
  }

  lemma AndFrom41(x: int)
    requires 41 <= x < 49
    ensures Polynomial(AND_TABLE, 0, x) % P == 0
  {
    if x < 43 {
      assert AndZeros(41.0, 2);
      AndZerosAt(41, 2, x);
    } else if x < 45 {
      assert AndZeros(43.0, 2);
      AndZerosAt(43, 2, x);
    } else if x < 47 {
      assert AndZeros(45.0, 2);
      AndZerosAt(45, 2, x);
    } else {
      assert AndZeros(47.0, 2);
      AndZerosAt(47, 2, x);
    }
  }

  lemma AndFrom49(x: int)
    requires 49 <= x < 57
    ensures Polynomial(AND_TABLE, 0, x) % P == 0
  {
    if x < 51 {
      assert AndZeros(49.0, 2);
      AndZerosAt(49, 2, x);
    } else if x < 53 {
      assert AndZeros(51.0, 2);
      AndZerosAt(51, 2, x);
    } else if x < 55 {
      assert AndZeros(53.0, 2);
      AndZerosAt(53, 2, x);
    } else {
      assert AndZeros(55.0, 2);
      AndZerosAt(55, 2, x);
    }
  }

  lemma AndFrom57(x: int)
    requires 57 <= x < 65
    ensures Polynomial(AND_TABLE, 0, x) % P == 0
  {
    if x < 59 {
      assert AndZeros(57.0, 2);
      AndZerosAt(57, 2, x);
    } else if x < 61 {
      assert AndZeros(59.0, 2);
      AndZerosAt(59, 2, x);
    } else if x < 63 {
      assert AndZeros(61.0, 2);
      AndZerosAt(61, 2, x);
    } else {
      assert AndZeros(63.0, 2);
      AndZerosAt(63, 2, x);
    }
  }

  lemma OrAtOne(x: int)
    requires x == 1
    ensures Polynomial(OR_TABLE, 0, x) % P == 0
  {
    assert Residue(OrPolynomial(1.0, 3), 18446744073709551557.0) == 0.0;
    OrWrittenOut(x);
    ResidueIsMod(Polynomial(OR_TABLE, 0, x), P);
  }

  lemma AndAtLast(x: int)
    requires x == 65
    ensures Polynomial(AND_TABLE, 0, x) % P == 1
  {
    assert Residue(AndPolynomial(65.0, 3), 18446744073709551557.0) == 1.0;
    AndWrittenOut(x);
    ResidueIsMod(Polynomial(AND_TABLE, 0, x), P);
  }

  /** The OR table interpolates 0 at 1 and 1 at 2, ..., 65. */
  lemma OrTableIsOr(x: int)
    requires 1 <= x <= 65
    ensures Polynomial(OR_TABLE, 0, x) % P == if x == 1 then 0 else 1
  {
    if x == 1 {
      OrAtOne(x);
    } else if x < 10 {
      OrFrom2(x);
    } else if x < 18 {
      OrFrom10(x);
    } else if x < 26 {
      OrFrom18(x);
    } else if x < 34 {
      OrFrom26(x);
    } else if x < 42 {
      OrFrom34(x);
    } else if x < 50 {
      OrFrom42(x);
    } else if x < 58 {
      OrFrom50(x);
    } else {
      OrFrom58(x);
    }
  }

  /** The AND table interpolates 1 at 65 and 0 at 1, ..., 64. */
  lemma AndTableIsAnd(x: int)
    requires 1 <= x <= 65
    ensures Polynomial(AND_TABLE, 0, x) % P == if x == 65 then 1 else 0
  {
    if x == 65 {
      AndAtLast(x);
    } else if x < 9 {
      AndFrom1(x);
    } else if x < 17 {
      AndFrom9(x);
    } else if x < 25 {
      AndFrom17(x);
    } else if x < 33 {
      AndFrom25(x);
    } else if x < 41 {
      AndFrom33(x);
    } else if x < 49 {
      AndFrom41(x);
    } else if x < 57 {
      AndFrom49(x);
    } else {
      AndFrom57(x);
    }
  }
}
