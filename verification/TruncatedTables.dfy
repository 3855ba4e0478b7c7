/**
 The coefficient tables cut off after any number of terms.  A mask product that is zero makes all
 later powers zero, so the fan-in protocols then evaluate a truncated table.  Every truncation after
 at least two terms is wrong at each of the 65 points, because the rest of the polynomial does not
 vanish there; this is read off the products of its Horner values, over the reals as in
 CoefficientTables.
 */
module TruncatedTables {
  import opened NumberTheory
  import opened PrimeModulus
  import opened CoefficientTables

  // ---------- sums of weighted powers ----------

  ghost function SumBelow(c: seq<int>, x: int, k: nat): int
    requires k <= |c|
  {
    if k == 0 then 0 else SumBelow(c, x, k - 1) + c[k - 1] * Pow(x, k - 1)
  }

  /** Horner's form and the sum of weighted powers agree. */
  lemma {:induction false} PolynomialSplit(c: seq<int>, x: int, k: nat)
    requires k <= |c|
    ensures Polynomial(c, 0, x) == SumBelow(c, x, k) + Pow(x, k) * Polynomial(c, k, x)
  {
    if k > 0 {
      PolynomialSplit(c, x, k - 1);
      SplitStep(Pow(x, k - 1), c[k - 1], x, Polynomial(c, k, x));
    }
  }

  lemma SplitStep(w: int, c: int, x: int, y: int)
    ensures w * (c + x * y) == c * w + (x * w) * y
  {
    assert w * (x * y) == (x * w) * y;
  }

  // ---------- the rest of a polynomial does not vanish ----------

  predicate NonZero(v: real) {
    Residue(v, 18446744073709551557.0) != 0.0
  }

  /** The product of seven values of Horner's rule. */
  function Seven(x: real, y: real, c1: real, c2: real, c3: real, c4: real, c5: real, c6: real, c7: real): real {
    (c7 + x * y) * (c6 + x * (c7 + x * y)) * (c5 + x * (c6 + x * (c7 + x * y))) * (c4 + x * (c5 + x * (c6 + x * (c7 + x * y))))
    * (c3 + x * (c4 + x * (c5 + x * (c6 + x * (c7 + x * y)))))
    * (c2 + x * (c3 + x * (c4 + x * (c5 + x * (c6 + x * (c7 + x * y))))))
    * (c1 + x * (c2 + x * (c3 + x * (c4 + x * (c5 + x * (c6 + x * (c7 + x * y)))))))
  }

  /** None of the eight values of a row is a multiple of P; the last of them is v. */
  predicate RowApart(x: real, y: real, v: real, c1: real, c2: real, c3: real, c4: real, c5: real, c6: real, c7: real) {
    NonZero(v) && NonZero(Seven(x, y, c1, c2, c3, c4, c5, c6, c7))
  }

  predicate SuffixesApart(c: seq<int>, x: int) {
    |c| == 65 && forall k :: 2 <= k < 65 ==> Polynomial(c, k, x) % P != 0
  }

  lemma FactorsApart(a: int, b: int)
    requires (a * b) % P != 0
    ensures a % P != 0 && b % P != 0
  {
    if a % P == 0 { ModMul(a, b, P); }
    assert a * b == b * a;
    if b % P == 0 { ModMul(b, a, P); }
  }

  function RealTimes(ts: seq<int>, k: nat): real
    requires k <= |ts|
  {
    if k == 0 then 1.0 else RealTimes(ts, k - 1) * ts[k - 1] as real
  }

  function Times(ts: seq<int>, k: nat): int
    requires k <= |ts|
  {
    if k == 0 then 1 else Times(ts, k - 1) * ts[k - 1]
  }

  lemma {:induction false} RealTimesIsTimes(ts: seq<int>, k: nat)
    requires k <= |ts|
    ensures RealTimes(ts, k) == Times(ts, k) as real
  {
    if k > 0 {
      RealTimesIsTimes(ts, k - 1);
      RealProduct(Times(ts, k - 1), ts[k - 1]);
    }
  }

  lemma {:induction false} TimesApart(ts: seq<int>, k: nat)
    requires k <= |ts| && Times(ts, k) % P != 0
    ensures forall i :: 0 <= i < k ==> ts[i] % P != 0
  {
    if k > 0 {
      FactorsApart(Times(ts, k - 1), ts[k - 1]);
      TimesApart(ts, k - 1);
    }
  }

  /** A real product of integers that is no multiple of P. */
  lemma RealTimesApart(ts: seq<int>)
    requires NonZero(RealTimes(ts, |ts|))
    ensures forall i :: 0 <= i < |ts| ==> ts[i] % P != 0
  {
    RealTimesIsTimes(ts, |ts|);
    ResidueIsMod(Times(ts, |ts|), P);
    TimesApart(ts, |ts|);
  }

  lemma TimesSame(a: real, b: real, c: real)
    requires a == b
    ensures a * c == b * c
  {
  }

  lemma SevenFactors(t1: int, t2: int, t3: int, t4: int, t5: int, t6: int, t7: int)
    ensures RealTimes([t7, t6, t5, t4, t3, t2, t1], 7)
         == t7 as real * t6 as real * t5 as real * t4 as real * t3 as real * t2 as real * t1 as real
  {
    var ts := [t7, t6, t5, t4, t3, t2, t1];
    assert RealTimes(ts, 1) == RealTimes(ts, 0) * t7 as real == t7 as real;
    TimesSame(RealTimes(ts, 1), t7 as real, t6 as real);
    TimesSame(RealTimes(ts, 2), t7 as real * t6 as real, t5 as real);
    TimesSame(RealTimes(ts, 3), t7 as real * t6 as real * t5 as real, t4 as real);
    TimesSame(RealTimes(ts, 4), t7 as real * t6 as real * t5 as real * t4 as real, t3 as real);
    TimesSame(RealTimes(ts, 5), t7 as real * t6 as real * t5 as real * t4 as real * t3 as real, t2 as real);
    TimesSame(RealTimes(ts, 6), t7 as real * t6 as real * t5 as real * t4 as real * t3 as real * t2 as real, t1 as real);
  }

  lemma FoldSeven(x: real, y: real, c1: real, c2: real, c3: real, c4: real, c5: real, c6: real, c7: real,
                  t1: real, t2: real, t3: real, t4: real, t5: real, t6: real, t7: real)
    requires t1 == c1 + x * t2 && t2 == c2 + x * t3 && t3 == c3 + x * t4
    requires t4 == c4 + x * t5 && t5 == c5 + x * t6 && t6 == c6 + x * t7 && t7 == c7 + x * y
    ensures Seven(x, y, c1, c2, c3, c4, c5, c6, c7) == t7 * t6 * t5 * t4 * t3 * t2 * t1
  {
    Substitute(c6, x, t7, c7 + x * y);
    Substitute(c5, x, t6, c6 + x * (c7 + x * y));
    Substitute(c4, x, t5, c5 + x * (c6 + x * (c7 + x * y)));
    Substitute(c3, x, t4, c4 + x * (c5 + x * (c6 + x * (c7 + x * y))));
    Substitute(c2, x, t3, c3 + x * (c4 + x * (c5 + x * (c6 + x * (c7 + x * y)))));
    Substitute(c1, x, t2, c2 + x * (c3 + x * (c4 + x * (c5 + x * (c6 + x * (c7 + x * y))))));
  }

  lemma RealStep(t: int, c: int, x: int, u: int)
    requires t == c + x * u
    ensures t as real == c as real + x as real * u as real
  {
    RealProduct(x, u);
  }

  /** The steps of Horner's rule over the integers, multiplied over the reals. */
  lemma HornerProduct(x: int, y: int, c1: int, c2: int, c3: int, c4: int, c5: int, c6: int, c7: int,
                      t1: int, t2: int, t3: int, t4: int, t5: int, t6: int, t7: int)
    requires t1 == c1 + x * t2 && t2 == c2 + x * t3 && t3 == c3 + x * t4
    requires t4 == c4 + x * t5 && t5 == c5 + x * t6 && t6 == c6 + x * t7 && t7 == c7 + x * y
    ensures Seven(x as real, y as real, c1 as real, c2 as real, c3 as real, c4 as real, c5 as real, c6 as real, c7 as real)
         == t7 as real * t6 as real * t5 as real * t4 as real * t3 as real * t2 as real * t1 as real
  {
    RealStep(t1, c1, x, t2);
    RealStep(t2, c2, x, t3);
    RealStep(t3, c3, x, t4);
    RealStep(t4, c4, x, t5);
    RealStep(t5, c5, x, t6);
    RealStep(t6, c6, x, t7);
    RealStep(t7, c7, x, y);
    FoldSeven(x as real, y as real, c1 as real, c2 as real, c3 as real, c4 as real, c5 as real, c6 as real, c7 as real,
              t1 as real, t2 as real, t3 as real, t4 as real, t5 as real, t6 as real, t7 as real);
  }

  lemma ApartTransfer(v: real, t1: int, t2: int, t3: int, t4: int, t5: int, t6: int, t7: int)
    requires v == RealTimes([t7, t6, t5, t4, t3, t2, t1], 7) && NonZero(v)
    ensures t1 % P != 0 && t2 % P != 0 && t3 % P != 0 && t4 % P != 0 && t5 % P != 0 && t6 % P != 0 && t7 % P != 0
  {
    var ts := [t7, t6, t5, t4, t3, t2, t1];
    RealTimesApart(ts);
    assert ts[0] == t7 && ts[1] == t6 && ts[2] == t5 && ts[3] == t4 && ts[4] == t3 && ts[5] == t2 && ts[6] == t1;
  }

  /** Seven steps of Horner's rule whose values multiply to no multiple of P. */
  lemma HornerApart(x: int, y: int, c1: int, c2: int, c3: int, c4: int, c5: int, c6: int, c7: int,
                    t1: int, t2: int, t3: int, t4: int, t5: int, t6: int, t7: int)
    requires t1 == c1 + x * t2 && t2 == c2 + x * t3 && t3 == c3 + x * t4
    requires t4 == c4 + x * t5 && t5 == c5 + x * t6 && t6 == c6 + x * t7 && t7 == c7 + x * y
    requires NonZero(Seven(x as real, y as real, c1 as real, c2 as real, c3 as real, c4 as real, c5 as real, c6 as real,
                           c7 as real))
    ensures t1 % P != 0 && t2 % P != 0 && t3 % P != 0 && t4 % P != 0 && t5 % P != 0 && t6 % P != 0 && t7 % P != 0
  {
    HornerProduct(x, y, c1, c2, c3, c4, c5, c6, c7, t1, t2, t3, t4, t5, t6, t7);
    SevenFactors(t1, t2, t3, t4, t5, t6, t7);
    ApartTransfer(Seven(x as real, y as real, c1 as real, c2 as real, c3 as real, c4 as real, c5 as real, c6 as real,
                        c7 as real), t1, t2, t3, t4, t5, t6, t7);
  }

  lemma ApartSeven(c: seq<int>, i: nat, x: int)
    requires i + 8 <= |c|
    requires NonZero(Seven(x as real, Polynomial(c, i + 8, x) as real, c[i + 1] as real, c[i + 2] as real,
                           c[i + 3] as real, c[i + 4] as real, c[i + 5] as real, c[i + 6] as real, c[i + 7] as real))
    ensures forall k :: i + 1 <= k < i + 8 ==> Polynomial(c, k, x) % P != 0
  {
    HornerApart(x, Polynomial(c, i + 8, x), c[i + 1], c[i + 2], c[i + 3], c[i + 4], c[i + 5], c[i + 6], c[i + 7],
                Polynomial(c, i + 1, x), Polynomial(c, i + 2, x), Polynomial(c, i + 3, x), Polynomial(c, i + 4, x),
                Polynomial(c, i + 5, x), Polynomial(c, i + 6, x), Polynomial(c, i + 7, x));
  }

  lemma ApartRow(c: seq<int>, i: nat, x: int)
    requires i + 8 <= |c|
    requires RowApart(x as real, Polynomial(c, i + 8, x) as real, Polynomial(c, i, x) as real, c[i + 1] as real,
                      c[i + 2] as real, c[i + 3] as real, c[i + 4] as real, c[i + 5] as real, c[i + 6] as real, c[i + 7] as real)
    ensures forall k :: i <= k < i + 8 ==> Polynomial(c, k, x) % P != 0
  {
    ResidueIsMod(Polynomial(c, i, x), P);
    ApartSeven(c, i, x);
  }

  /** A delay of three keeps the solver from unfolding the rows at an x that is no literal. */
  predicate OrApart(x: real, delay: nat)
    decreases delay, x
  {
    if delay > 0 then OrApart(x, delay - 1)
    else
      var y57 := Eight(x, 0.0, 2902984712153508625.0, 6333090465997358509.0, 9996528576620247823.0, 11806089667835996467.0,
                        15792408873328964335.0, 14951514151164516184.0, 2230240327554514938.0, 17774600287293087221.0);
      var y49 := Eight(x, y57, 14478303024279957496.0, 2874963986830092253.0, 3027861925099033411.0, 3827102190137661457.0,
                        12528878074288803348.0, 5215393447045447612.0, 9586533887964671917.0, 3356091034157294274.0);
      var y41 := Eight(x, y49, 6378144199063646497.0, 17663587804867607672.0, 16148746862917335565.0, 15537620600452524460.0,
                        5258026759045415754.0, 13903054235566673560.0, 13960238641761739087.0, 17636644537631434137.0);
      var y33 := Eight(x, y41, 9073751420990236602.0, 12505410719513991034.0, 2125245660187079351.0, 15846075763828250700.0,
                        3886182126918060030.0, 8108428213219044342.0, 7230779232974847667.0, 16872135629383927467.0);
      var y25 := Eight(x, y33, 7422142630459751295.0, 8493480566397125402.0, 5197722549818600602.0, 14735780618044279429.0,
                        1253747699690153233.0, 16331314050017923346.0, 8939522708637072316.0, 14886963398089785966.0);
      var y17 := Eight(x, y25, 14520034406506226582.0, 13839012095455519695.0, 10500139574289659412.0, 2962336181382223452.0,
                        6767675871271430215.0, 6933421926280334339.0, 15958841553693851655.0, 15160740279984758829.0);
      var y9 := Eight(x, y17, 10960075435459066463.0, 16764588636202349672.0, 17506652363315270202.0, 16166875542546532309.0,
                        3964617125041583173.0, 11719255904316824165.0, 10424936898019828672.0, 4205127743406738449.0);
      && RowApart(x, 0.0, y57, 6333090465997358509.0, 9996528576620247823.0, 11806089667835996467.0, 15792408873328964335.0,
               14951514151164516184.0, 2230240327554514938.0, 17774600287293087221.0)
      && RowApart(x, y57, y49, 2874963986830092253.0, 3027861925099033411.0, 3827102190137661457.0, 12528878074288803348.0,
               5215393447045447612.0, 9586533887964671917.0, 3356091034157294274.0)
      && RowApart(x, y49, y41, 17663587804867607672.0, 16148746862917335565.0, 15537620600452524460.0, 5258026759045415754.0,
               13903054235566673560.0, 13960238641761739087.0, 17636644537631434137.0)
      && RowApart(x, y41, y33, 12505410719513991034.0, 2125245660187079351.0, 15846075763828250700.0, 3886182126918060030.0,
               8108428213219044342.0, 7230779232974847667.0, 16872135629383927467.0)
      && RowApart(x, y33, y25, 8493480566397125402.0, 5197722549818600602.0, 14735780618044279429.0, 1253747699690153233.0,
               16331314050017923346.0, 8939522708637072316.0, 14886963398089785966.0)
      && RowApart(x, y25, y17, 13839012095455519695.0, 10500139574289659412.0, 2962336181382223452.0, 6767675871271430215.0,
               6933421926280334339.0, 15958841553693851655.0, 15160740279984758829.0)
      && RowApart(x, y17, y9, 16764588636202349672.0, 17506652363315270202.0, 16166875542546532309.0, 3964617125041583173.0,
               11719255904316824165.0, 10424936898019828672.0, 4205127743406738449.0)
      && NonZero(Seven(x, y9, 4007652756006865783.0, 4100635666949508952.0, 13520771370602560384.0, 10644542489970931539.0,
               13748537863183121296.0, 11359914866391222416.0, 11247219807349180267.0))
  }

  /** The same for the other table. */
  predicate AndApart(x: real, delay: nat)
    decreases delay, x
  {
    if delay > 0 then AndApart(x, delay - 1)
    else
      var y57 := Eight(x, 0.0, 9230709934058803069.0, 12860062884571458050.0, 14898881793951465380.0, 9282848170176021024.0,
                        16257860633325038337.0, 546853837372292893.0, 3893473855680099452.0, 672143786416464336.0);
      var y49 := Eight(x, y57, 9900973216959770499.0, 11398882017370494561.0, 1875791515713213273.0, 18179510337970552075.0,
                        12349041994205078879.0, 4559441349647564738.0, 4543633939816633313.0, 9247229033112764012.0);
      var y41 := Eight(x, y49, 13296832158245447365.0, 12801767259528789327.0, 8166545265620715462.0, 12622067858020089155.0,
                        10852787575795086238.0, 15358952924301378654.0, 14141418894305759068.0, 13215619082908852856.0);
      var y33 := Eight(x, y41, 6314115150414057577.0, 5720266728093558989.0, 11315745394801430483.0, 13585209705064903598.0,
                        10609659846084906928.0, 6341781282790677798.0, 394864220565298862.0, 5249871464994426133.0);
      var y25 := Eight(x, y33, 1438215050425705879.0, 11073690707525551423.0, 17532628264929026480.0, 6082710703763137390.0,
                        5125529121156609847.0, 3536240549677738615.0, 168123567554747533.0, 17222647251913610444.0);
      var y17 := Eight(x, y25, 4939553442392971102.0, 6613779837673282520.0, 6112835044719072700.0, 11561852329015516476.0,
                        3241087653075867336.0, 11115359391888299599.0, 1734929295488186025.0, 11958404333307668373.0);
      var y9 := Eight(x, y17, 10696557716079594807.0, 3197018912709867365.0, 9970630734852788482.0, 10106868463622397398.0,
                        6870526778099185113.0, 16162773849234898198.0, 6512084038109877353.0, 17791231165580233294.0);
      && RowApart(x, 0.0, y57, 12860062884571458050.0, 14898881793951465380.0, 9282848170176021024.0, 16257860633325038337.0,
               546853837372292893.0, 3893473855680099452.0, 672143786416464336.0)
      && RowApart(x, y57, y49, 11398882017370494561.0, 1875791515713213273.0, 18179510337970552075.0, 12349041994205078879.0,
               4559441349647564738.0, 4543633939816633313.0, 9247229033112764012.0)
      && RowApart(x, y49, y41, 12801767259528789327.0, 8166545265620715462.0, 12622067858020089155.0, 10852787575795086238.0,
               15358952924301378654.0, 14141418894305759068.0, 13215619082908852856.0)
      && RowApart(x, y41, y33, 5720266728093558989.0, 11315745394801430483.0, 13585209705064903598.0, 10609659846084906928.0,
               6341781282790677798.0, 394864220565298862.0, 5249871464994426133.0)
      && RowApart(x, y33, y25, 11073690707525551423.0, 17532628264929026480.0, 6082710703763137390.0, 5125529121156609847.0,
               3536240549677738615.0, 168123567554747533.0, 17222647251913610444.0)
      && RowApart(x, y25, y17, 6613779837673282520.0, 6112835044719072700.0, 11561852329015516476.0, 3241087653075867336.0,
               11115359391888299599.0, 1734929295488186025.0, 11958404333307668373.0)
      && RowApart(x, y17, y9, 3197018912709867365.0, 9970630734852788482.0, 10106868463622397398.0, 6870526778099185113.0,
               16162773849234898198.0, 6512084038109877353.0, 17791231165580233294.0)
      && NonZero(Seven(x, y9, 15603599130927532848.0, 3927973679664754768.0, 13253920145236317331.0, 5072689204291235733.0,
               3435840349470671764.0, 16549778763406408630.0, 12459576446030141042.0))
  }

  lemma OrWrittenApart(x: int)
    requires OrApart(x as real, 3)
    ensures SuffixesApart(OR_TABLE, x)
  {
    var c := OR_TABLE;
    assert OrApart(x as real, 2) && OrApart(x as real, 1) && OrApart(x as real, 0);
    assert Polynomial(c, 65, x) == 0;
    TableRow(c, 57, x);
    TableRow(c, 49, x);
    TableRow(c, 41, x);
    TableRow(c, 33, x);
    TableRow(c, 25, x);
    TableRow(c, 17, x);
    TableRow(c, 9, x);
    ApartRow(c, 57, x);
    ApartRow(c, 49, x);
    ApartRow(c, 41, x);
    ApartRow(c, 33, x);
    ApartRow(c, 25, x);
    ApartRow(c, 17, x);
    ApartRow(c, 9, x);
    ApartSeven(c, 1, x);
  }

  lemma AndWrittenApart(x: int)
    requires AndApart(x as real, 3)
    ensures SuffixesApart(AND_TABLE, x)
  {
    var c := AND_TABLE;
    assert AndApart(x as real, 2) && AndApart(x as real, 1) && AndApart(x as real, 0);
    assert Polynomial(c, 65, x) == 0;
    TableRow(c, 57, x);
    TableRow(c, 49, x);
    TableRow(c, 41, x);
    TableRow(c, 33, x);
    TableRow(c, 25, x);
    TableRow(c, 17, x);
    TableRow(c, 9, x);
    ApartRow(c, 57, x);
    ApartRow(c, 49, x);
    ApartRow(c, 41, x);
    ApartRow(c, 33, x);
    ApartRow(c, 25, x);
    ApartRow(c, 17, x);
    ApartRow(c, 9, x);
    ApartSeven(c, 1, x);
  }

  // ---------- the 65 points ----------

  predicate OrAparts(x: real, count: nat)
    decreases count, x
  {
    count == 0 || (OrApart(x, 3) && OrAparts(x + 1.0, count - 1))
  }

  lemma {:induction false} OrApartsAt(first: int, count: nat, x: int)
    requires OrAparts(first as real, count) && first <= x < first + count
    ensures SuffixesApart(OR_TABLE, x)
    decreases count
  {
    if x == first {
      OrWrittenApart(x);
    } else {
      assert (first + 1) as real == first as real + 1.0;
      OrApartsAt(first + 1, count - 1, x);
    }
  }

  lemma OrFrom1()
    ensures OrAparts(1.0, 3)
  {
    assert OrAparts(1.0, 3);
  }

  lemma OrFrom4()
    ensures OrAparts(4.0, 3)
  {
    assert OrAparts(4.0, 3);
  }

  lemma OrFrom7()
    ensures OrAparts(7.0, 3)
  {
    assert OrAparts(7.0, 3);
  }

  lemma OrFrom10()
    ensures OrAparts(10.0, 3)
  {
    assert OrAparts(10.0, 3);
  }

  lemma OrFrom13()
    ensures OrAparts(13.0, 3)
  {
    assert OrAparts(13.0, 3);
  }

  lemma OrFrom16()
    ensures OrAparts(16.0, 3)
  {
    assert OrAparts(16.0, 3);
  }

  lemma OrFrom19()
    ensures OrAparts(19.0, 3)
  {
    assert OrAparts(19.0, 3);
  }

  lemma OrFrom22()
    ensures OrAparts(22.0, 3)
  {
    assert OrAparts(22.0, 3);
  }

  lemma OrFrom25()
    ensures OrAparts(25.0, 3)
  {
    assert OrAparts(25.0, 3);
  }

  lemma OrFrom28()
    ensures OrAparts(28.0, 3)
  {
    assert OrAparts(28.0, 3);
  }

  lemma OrFrom31()
    ensures OrAparts(31.0, 3)
  {
    assert OrAparts(31.0, 3);
  }

  lemma OrFrom34()
    ensures OrAparts(34.0, 3)
  {
    assert OrAparts(34.0, 3);
  }

  lemma OrFrom37()
    ensures OrAparts(37.0, 3)
  {
    assert OrAparts(37.0, 3);
  }

  lemma OrFrom40()
    ensures OrAparts(40.0, 3)
  {
    assert OrAparts(40.0, 3);
  }

  lemma OrFrom43()
    ensures OrAparts(43.0, 3)
  {
    assert OrAparts(43.0, 3);
  }

  lemma OrFrom46()
    ensures OrAparts(46.0, 3)
  {
    assert OrAparts(46.0, 3);
  }

  lemma OrFrom49()
    ensures OrAparts(49.0, 3)
  {
    assert OrAparts(49.0, 3);
  }

  lemma OrFrom52()
    ensures OrAparts(52.0, 3)
  {
    assert OrAparts(52.0, 3);
  }

  lemma OrFrom55()
    ensures OrAparts(55.0, 3)
  {
    assert OrAparts(55.0, 3);
  }

  lemma OrFrom58()
    ensures OrAparts(58.0, 3)
  {
    assert OrAparts(58.0, 3);
  }

  lemma OrFrom61()
    ensures OrAparts(61.0, 3)
  {
    assert OrAparts(61.0, 3);
  }

  lemma OrFrom64()
    ensures OrAparts(64.0, 2)
  {
    assert OrAparts(64.0, 2);
  }

  lemma OrSuffixesApart(x: int)
    requires 1 <= x <= 65
    ensures SuffixesApart(OR_TABLE, x)
  {
    if x < 4 {
      OrFrom1();
      OrApartsAt(1, 3, x);
    } else if x < 7 {
      OrFrom4();
      OrApartsAt(4, 3, x);
    } else if x < 10 {
      OrFrom7();
      OrApartsAt(7, 3, x);
    } else if x < 13 {
      OrFrom10();
      OrApartsAt(10, 3, x);
    } else if x < 16 {
      OrFrom13();
      OrApartsAt(13, 3, x);
    } else if x < 19 {
      OrFrom16();
      OrApartsAt(16, 3, x);
    } else if x < 22 {
      OrFrom19();
      OrApartsAt(19, 3, x);
    } else if x < 25 {
      OrFrom22();
      OrApartsAt(22, 3, x);
    } else if x < 28 {
      OrFrom25();
      OrApartsAt(25, 3, x);
    } else if x < 31 {
      OrFrom28();
      OrApartsAt(28, 3, x);
    } else if x < 34 {
      OrFrom31();
      OrApartsAt(31, 3, x);
    } else if x < 37 {
      OrFrom34();
      OrApartsAt(34, 3, x);
    } else if x < 40 {
      OrFrom37();
      OrApartsAt(37, 3, x);
    } else if x < 43 {
      OrFrom40();
      OrApartsAt(40, 3, x);
    } else if x < 46 {
      OrFrom43();
      OrApartsAt(43, 3, x);
    } else if x < 49 {
      OrFrom46();
      OrApartsAt(46, 3, x);
    } else if x < 52 {
      OrFrom49();
      OrApartsAt(49, 3, x);
    } else if x < 55 {
      OrFrom52();
      OrApartsAt(52, 3, x);
    } else if x < 58 {
      OrFrom55();
      OrApartsAt(55, 3, x);
    } else if x < 61 {
      OrFrom58();
      OrApartsAt(58, 3, x);
    } else if x < 64 {
      OrFrom61();
      OrApartsAt(61, 3, x);
    } else {
      OrFrom64();
      OrApartsAt(64, 2, x);
    }
  }

  predicate AndAparts(x: real, count: nat)
    decreases count, x
  {
    count == 0 || (AndApart(x, 3) && AndAparts(x + 1.0, count - 1))
  }

  lemma {:induction false} AndApartsAt(first: int, count: nat, x: int)
    requires AndAparts(first as real, count) && first <= x < first + count
    ensures SuffixesApart(AND_TABLE, x)
    decreases count
  {
    if x == first {
      AndWrittenApart(x);
    } else {
      assert (first + 1) as real == first as real + 1.0;
      AndApartsAt(first + 1, count - 1, x);
    }
  }

  lemma AndFrom1()
    ensures AndAparts(1.0, 3)
  {
    assert AndAparts(1.0, 3);
  }

  lemma AndFrom4()
    ensures AndAparts(4.0, 3)
  {
    assert AndAparts(4.0, 3);
  }

  lemma AndFrom7()
    ensures AndAparts(7.0, 3)
  {
    assert AndAparts(7.0, 3);
  }

  lemma AndFrom10()
    ensures AndAparts(10.0, 3)
  {
    assert AndAparts(10.0, 3);
  }

  lemma AndFrom13()
    ensures AndAparts(13.0, 3)
  {
    assert AndAparts(13.0, 3);
  }

  lemma AndFrom16()
    ensures AndAparts(16.0, 3)
  {
    assert AndAparts(16.0, 3);
  }

  lemma AndFrom19()
    ensures AndAparts(19.0, 3)
  {
    assert AndAparts(19.0, 3);
  }

  lemma AndFrom22()
    ensures AndAparts(22.0, 3)
  {
    assert AndAparts(22.0, 3);
  }

  lemma AndFrom25()
    ensures AndAparts(25.0, 3)
  {
    assert AndAparts(25.0, 3);
  }

  lemma AndFrom28()
    ensures AndAparts(28.0, 3)
  {
    assert AndAparts(28.0, 3);
  }

  lemma AndFrom31()
    ensures AndAparts(31.0, 3)
  {
    assert AndAparts(31.0, 3);
  }

  lemma AndFrom34()
    ensures AndAparts(34.0, 3)
  {
    assert AndAparts(34.0, 3);
  }

  lemma AndFrom37()
    ensures AndAparts(37.0, 3)
  {
    assert AndAparts(37.0, 3);
  }

  lemma AndFrom40()
    ensures AndAparts(40.0, 3)
  {
    assert AndAparts(40.0, 3);
  }

  lemma AndFrom43()
    ensures AndAparts(43.0, 3)
  {
    assert AndAparts(43.0, 3);
  }

  lemma AndFrom46()
    ensures AndAparts(46.0, 3)
  {
    assert AndAparts(46.0, 3);
  }

  lemma AndFrom49()
    ensures AndAparts(49.0, 3)
  {
    assert AndAparts(49.0, 3);
  }

  lemma AndFrom52()
    ensures AndAparts(52.0, 3)
  {
    assert AndAparts(52.0, 3);
  }

  lemma AndFrom55()
    ensures AndAparts(55.0, 3)
  {
    assert AndAparts(55.0, 3);
  }

  lemma AndFrom58()
    ensures AndAparts(58.0, 3)
  {
    assert AndAparts(58.0, 3);
  }

  lemma AndFrom61()
    ensures AndAparts(61.0, 3)
  {
    assert AndAparts(61.0, 3);
  }

  lemma AndFrom64()
    ensures AndAparts(64.0, 2)
  {
    assert AndAparts(64.0, 2);
  }

  lemma AndSuffixesApart(x: int)
    requires 1 <= x <= 65
    ensures SuffixesApart(AND_TABLE, x)
  {
    if x < 4 {
      AndFrom1();
      AndApartsAt(1, 3, x);
    } else if x < 7 {
      AndFrom4();
      AndApartsAt(4, 3, x);
    } else if x < 10 {
      AndFrom7();
      AndApartsAt(7, 3, x);
    } else if x < 13 {
      AndFrom10();
      AndApartsAt(10, 3, x);
    } else if x < 16 {
      AndFrom13();
      AndApartsAt(13, 3, x);
    } else if x < 19 {
      AndFrom16();
      AndApartsAt(16, 3, x);
    } else if x < 22 {
      AndFrom19();
      AndApartsAt(19, 3, x);
    } else if x < 25 {
      AndFrom22();
      AndApartsAt(22, 3, x);
    } else if x < 28 {
      AndFrom25();
      AndApartsAt(25, 3, x);
    } else if x < 31 {
      AndFrom28();
      AndApartsAt(28, 3, x);
    } else if x < 34 {
      AndFrom31();
      AndApartsAt(31, 3, x);
    } else if x < 37 {
      AndFrom34();
      AndApartsAt(34, 3, x);
    } else if x < 40 {
      AndFrom37();
      AndApartsAt(37, 3, x);
    } else if x < 43 {
      AndFrom40();
      AndApartsAt(40, 3, x);
    } else if x < 46 {
      AndFrom43();
      AndApartsAt(43, 3, x);
    } else if x < 49 {
      AndFrom46();
      AndApartsAt(46, 3, x);
    } else if x < 52 {
      AndFrom49();
      AndApartsAt(49, 3, x);
    } else if x < 55 {
      AndFrom52();
      AndApartsAt(52, 3, x);
    } else if x < 58 {
      AndFrom55();
      AndApartsAt(55, 3, x);
    } else if x < 61 {
      AndFrom58();
      AndApartsAt(58, 3, x);
    } else if x < 64 {
      AndFrom61();
      AndApartsAt(61, 3, x);
    } else {
      AndFrom64();
      AndApartsAt(64, 2, x);
    }
  }

  // ---------- truncated tables ----------

  lemma {:induction false} PowNonZero(x: int, k: nat)
    requires 0 < x < P
    ensures Pow(x, k) % P != 0
  {
    ModulusIsPrime();
    ModSmall(x, P);
    if k == 0 {
      ModSmall(1, P);
    } else {
      PowNonZero(x, k - 1);
      if Pow(x, k) % P == 0 { NoZeroDivisors(x, Pow(x, k - 1), P); }
    }
  }

  /** Cutting off a rest that does not vanish changes the value. */
  lemma TruncationDiffers(c: seq<int>, x: int, k: nat)
    requires 0 < x < P && k <= |c| && Polynomial(c, k, x) % P != 0
    ensures SumBelow(c, x, k) % P != Polynomial(c, 0, x) % P
  {
    PolynomialSplit(c, x, k);
    PowNonZero(x, k);
    ModulusIsPrime();
    if SumBelow(c, x, k) % P == Polynomial(c, 0, x) % P {
      DifferenceMod(Polynomial(c, 0, x), SumBelow(c, x, k), P);
      NoZeroDivisors(Pow(x, k), Polynomial(c, k, x), P);
    }
  }

  lemma WholeTable(c: seq<int>, x: int)
    ensures SumBelow(c, x, |c|) == Polynomial(c, 0, x)
  {
    PolynomialSplit(c, x, |c|);
  }

  lemma FirstTerm(c: seq<int>, x: int)
    requires 0 < |c|
    ensures SumBelow(c, x, 1) == c[0]
  {
    assert SumBelow(c, x, 1) == SumBelow(c, x, 0) + c[0] * Pow(x, 0);
  }

  /** The OR table is right only as a whole. */
  lemma TruncatedOr(x: int, k: nat)
    requires 1 <= x <= 65 && 1 <= k <= 65
    ensures SumBelow(OR_TABLE, x, k) % P == (if x == 1 then 0 else 1) <==> k == 65
  {
    OrTableIsOr(x);
    if k == 65 {
      WholeTable(OR_TABLE, x);
    } else if k == 1 {
      FirstTerm(OR_TABLE, x);
    } else {
      OrSuffixesApart(x);
      TruncationDiffers(OR_TABLE, x, k);
    }
  }

  /** The AND table is right as a whole, and at 65 also when only its first term is left. */
  lemma TruncatedAnd(x: int, k: nat)
    requires 1 <= x <= 65 && 1 <= k <= 65
    ensures SumBelow(AND_TABLE, x, k) % P == (if x == 65 then 1 else 0) <==> k == 65 || (k == 1 && x == 65)
  {
    AndTableIsAnd(x);
    if k == 65 {
      WholeTable(AND_TABLE, x);
    } else if k == 1 {
      FirstTerm(AND_TABLE, x);
    } else {
      AndSuffixesApart(x);
      TruncationDiffers(AND_TABLE, x, k);
    }
  }
}
