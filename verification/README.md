# QuickMPC computation engine: model and proofs

QuickMPC lets n parties compute on additively shared numbers. This project models its comparison
protocols, the message exchange below them, and the smaller stateful parts beside them, and
proves what they promise.

`dafny verify dfyconfig.toml` checks everything.

- **Field side.** `NumberTheory`, `PrimeModulus` (2^64 - 59 is proved prime), `PrimeField`,
  `CoefficientTables`, `TruncatedTables`, `FieldShare` (Beaver multiplication), `ShareInverse`,
  `FanIn`, `PrefixOr`, `RandomBits`, `BitwiseLess`, `HalfRange`, `Compare`, `Interval` and
  `WrongAnswers` build the comparison, equality and interval tests over shares of field elements. A
  share is the sequence of all parties' residues; its value is their sum modulo p. Every random draw
  is an input.
- **Fixed-point side.** `FixedPoint`, `FixedShare`, `LowBits`, `SignTests`, `SignCut`,
  `PublicEquality` and `Floors` follow the truncating integers scaled by 10^8 through the sign test,
  the comparison operators and the floor. A share is the sequence of all parties' integers, each cut
  on its own, and errors are counted in units of 10^-8. Triples are whole numbers, because the triple service sends 64-bit
  integers (`src/Proto/EngineToBts/engine_to_bts.proto`, lines 16-20).
- **Exchange.** `ShareIds`, `Exchange`, `ExchangeProofs`, `ExchangeRuns`, `SharingCode`,
  `JobResults` and `AdaptiveRuns` are a step machine of n parties with keyed mailboxes, where every constructor,
  copy, move and assignment of a share has its effect on ids, and where the next call may depend on
  opened values; party numbers are counted from zero there.
- **Others.** `Barrier`, `BarrierProofs` and `BarrierRuns` (the Go barrier), `DecisionTree` and
  `TreePrediction` (SID3), `Joins` and `TableJoins` (table joins), `JobPool` (dispatching jobs). `Sums` and
  `Options` are shared helpers.

Two kinds of draws make the field tests answer wrongly, and both are given with an exact condition.
Mask products that open to zero: `FanInOr` is right if and only if there are none (`Usable`), and the
tests built from many ORs ask for that. Numbers of 64 bits that reach p, because the program leaves
out the check: the tests are given with their answer for every drawn number, and with the condition
under which it is right.

Where the code differs from what its documents say:

- The document on comparison operators rates the prime-field tests as never misjudging if the
  protocol is followed. The code departs from the protocol by leaving out the check on the drawn
  number, and then they do misjudge, comparisonTest included, on draws that `WrongAnswers` gives.
  intervalTest also does on two openings with a drawn number below p, because the bound p is reduced
  to zero; and every OR does on masks that open to zero (`OrFails`).
- `operator<` over fixed point takes a small positive difference for none. For up to eight parties
  it answers true if and only if the difference is at least 763 units (0.00000763); for nine
  to 1000 parties a difference of 763 units is answered either way, depending on the draws.
  `getFloor` rounds up below a whole number with the same cut.
- `operator==` is documented as "neither is less". Between a share and a public number it compares,
  in one direction, with n times the public number: with two parties or more it answers 2 == 1 true
  and -1 == -1 false.
- The document gives 2^k > |a - b| as the range of that comparison, with k = 32. The code needs no
  such limit: over unbounded integers the operators answer any difference and never exit.

## Model

| member | source | states |
|---|---|---|
| PrimeModulus.ModulusIsPrime | src/ComputationContainer/PrimeField/PrimeField.hpp:21 | the modulus 2^64 - 59 is prime, by a Pocklington certificate; no later result assumes it |
| NumberTheory.Fermat | src/ComputationContainer/PrimeField/PrimeField.hpp:49 | a^(p-1) = 1 mod p for prime p and a not divisible by p, which is why the exponent p - 2 inverts |
| NumberTheory.NoZeroDivisors | src/ComputationContainer/PrimeField/PrimeField.hpp:69-74 | a product is zero mod a prime only if a factor is; masks and squares are never lost |
| NumberTheory.SquareRootsOfOne | src/ComputationContainer/PrimeField/PrimeField.hpp:142-157 | one has only the roots 1 and p - 1 mod a prime, so modsqrt needs one round at most |
| CoefficientTables.OrTableIsOr | src/ComputationContainer/Share/Compare.hpp:13-35 | the OR table, as a polynomial mod p, is 0 at 1 and 1 at every point from 2 to 65 |
| CoefficientTables.AndTableIsAnd | src/ComputationContainer/Share/Compare.hpp:39-104 | the AND table is 0 at every point from 1 to 64 and 1 at 65 |
| TruncatedTables.TruncatedOr | src/ComputationContainer/Share/Compare.hpp:13-35 | at every point from 1 to 65 the OR table, cut off after any number of terms, is right only as a whole |
| TruncatedTables.TruncatedAnd | src/ComputationContainer/Share/Compare.hpp:39-104 | the AND table likewise, except that at 65 its first term alone is right too |
| PrimeField.Modpow | src/ComputationContainer/PrimeField/PrimeField.hpp:97-108 | square and multiply returns a^b mod p for every base and exponent |
| PrimeField.GetInv | src/ComputationContainer/PrimeField/PrimeField.hpp:49 | a * getInv(a) = 1 mod p for every non-zero a, and zero is sent to zero |
| PrimeField.SquaringsToOne | src/ComputationContainer/PrimeField/PrimeField.hpp:144-150 | the inner loop stops below M exactly when M = 2 and t squares to one |
| PrimeField.RoundFactor | src/ComputationContainer/PrimeField/PrimeField.hpp:152 | the inner exponent is a power of one instead of two, and still gives c^(2^(M-i-1)) because M - i - 1 is zero |
| PrimeField.Modsqrt | src/ComputationContainer/PrimeField/PrimeField.hpp:123-167 | returns a root exactly on non-zero squares: positive, at most p/2, its square is the input; on anything else the checked exponent goes below zero |
| FieldShare.Add | src/ComputationContainer/Share/Share.hpp:93-97 | the sum of shares shares the sum mod p, and every summand stays in its range |
| FieldShare.Subtract | src/ComputationContainer/Share/Share.hpp:98-102 | the difference of shares shares the difference mod p |
| FieldShare.Negate | src/ComputationContainer/Share/Share.hpp:55-60 | negating every summand (a zero becomes p) negates the shared value |
| FieldShare.Scale | src/ComputationContainer/Share/Share.hpp:152-156 | a public factor multiplies the shared value |
| FieldShare.AddPublic | src/ComputationContainer/Share/Share.hpp:134-142 | a public summand, added by party sp_id only, is added to the shared value once |
| FieldShare.PublicMinus | src/ComputationContainer/Share/Share.hpp:210-215 | k - share shares k minus the value |
| FieldShare.OpenRecons | src/ComputationContainer/Share/Networking.hpp:88-110 | recons returns the shared value, reduced below p |
| FieldShare.OpenReconsAll | src/ComputationContainer/Share/Networking.hpp:111-147 | the vector form reconstructs every element, in order |
| FieldShare.ConstantTriple | src/ComputationContainer/TripleHandler/TripleHandler.hpp:28-42 | the constant triple (1, 1, n) at every party shares n, n and n * n: a valid Beaver triple |
| FieldShare.Multiply | src/ComputationContainer/Share/Share.hpp:103-127 | Beaver multiplication reconstructs to exactly x * y mod p, for every valid triple |
| FieldShare.MultiplyAll | src/ComputationContainer/Share/Share.hpp:269-315 | the vector product throws exactly on unequal lengths, and otherwise multiplies element by element through the d-then-e layout |
| ShareInverse.GetShareInverse | src/ComputationContainer/Share/Share.hpp:347-369 | the share of u^-1 times the mask is a share of the inverse for every non-zero element, and of zero for zero |
| RandomBits.Sharize | src/ComputationContainer/Share/Share.hpp:318-345 | the dealt pieces sum to the secret, whatever the random pieces are |
| FanIn.InvertMasks | src/ComputationContainer/Share/Compare.cpp:292-313 | the opened product of two masks, inverted, times the second mask shares the inverse of the first; a product that opens to zero gives zero |
| FanIn.MaskedFactors | src/ComputationContainer/Share/Compare.cpp:316-338 | the product of the first k + 1 opened factors, times the k-th mask, is A^(k+1), and zero from the first useless mask on |
| FanIn.Powers | src/ComputationContainer/Share/Compare.cpp:341-361 | the k-th result shares A^k, for every k up to 64, and zero from the first useless mask on |
| FanIn.FanInOr | src/ComputationContainer/Share/Compare.cpp:281-364 | a share of the OR of 64 shared bits if and only if no opened mask product is zero |
| FanIn.FanInAnd | src/ComputationContainer/Share/Compare.cpp:369-452 | a share of the AND of 64 shared bits if and only if no opened mask product is zero, or the first one is and all bits are one |
| PrefixOr.Padding0 | src/ComputationContainer/Share/Compare.cpp:459-469 | the first shares, at most 64 whatever the start index is, stay in their places and all later ones, up to 64, are shares of zero |
| PrefixOr.BlockOrs | src/ComputationContainer/Share/Compare.cpp:477-487 | for each block of eight: its OR, if and only if the masks of that OR are usable |
| PrefixOr.Locate | src/ComputationContainer/Share/Compare.cpp:497-503 | the f vector is one exactly at the first non-zero block, and zero everywhere if there is none |
| PrefixOr.SelectBlock | src/ComputationContainer/Share/Compare.cpp:505-515 | the selected column j is bit j of the first non-zero block, or zero |
| PrefixOr.SubPrefixOr | src/ComputationContainer/Share/Compare.cpp:473-542 | at every position a share of the OR of all bits up to it |
| RandomBits.SubRBS | src/ComputationContainer/Share/Compare.cpp:214-230 | always yields a bit: it tells whether the first non-zero draw is at most p/2 |
| RandomBits.SubRBVS | src/ComputationContainer/Share/Compare.cpp:234-246 | 64 shared bits, each telling whether the first non-zero draw for it is at most p/2, and their number (it may reach p, the check being left out) |
| RandomBits.NumberUnique | src/ComputationContainer/Share/Compare.cpp:582-592 | two bit vectors denote the same number exactly when all bits agree |
| RandomBits.BStoSC | src/ComputationContainer/Share/Compare.cpp:582-592 | the bits, weighted from the last one up, share their number mod p |
| RandomBits.PFtoBS | src/ComputationContainer/Share/Compare.cpp:597-619 | 64 shared bits whose number is x; with BStoSC the round trip is the identity below p |
| BitwiseLess.SubBitwiseLessThan | src/ComputationContainer/Share/Compare.cpp:545-577 | a share of [a < b] for the numbers of two bit vectors, decided at the first difference |
| HalfRange.HalfAnswerIsRight | src/ComputationContainer/Share/Compare.cpp:623-655 | the half-range answer is right if and only if r is below p or r - p does not exceed the opened number |
| HalfRange.SubHalfLessThan | src/ComputationContainer/Share/Compare.cpp:623-655 | a share of the answer for every r, and of [a <= (p - 1)/2] when r is below p |
| Compare.HalvesDecideOrder | src/ComputationContainer/Share/Compare.cpp:706-718 | the halves of a, b and a - b mod p determine [a < b] for all a and b |
| Compare.ComparisonAnswerIsRight | src/ComputationContainer/Share/Compare.cpp:706-718 | which combinations of failing half-range tests leave the comparison right: an if-and-only-if over all inputs and all three drawn numbers |
| Compare.ComparisonTest | src/ComputationContainer/Share/Compare.cpp:706-718 | for all field elements and all drawn numbers: the answer, right if and only if ComparisonHolds; so a share of [a < b] for numbers drawn below p |
| Compare.EqualityAnswerIsRight | src/ComputationContainer/Share/Compare.cpp:721-751 | the equality answer is right if and only if r is below p or a differs from b |
| Compare.EqualityTest | src/ComputationContainer/Share/Compare.cpp:721-751 | for every r and all masks: a share of [a + r - b mod p = r] if and only if the AND survives its masks; that is [a = b] if and only if r is below p or a differs from b |
| Interval.IntervalAnswerMeans | src/ComputationContainer/Share/Compare.cpp:660-703 | the interval answer for all inputs with c1 < c2: [c1 < a < c2], except on the openings c1 and c2 - 1 (if above c1) and for r of at least p, where it is about the opened number |
| Interval.ReversedAnswerMeans | src/ComputationContainer/Share/Compare.cpp:660-703 | for c2 <= c1 the answer is one exactly if r is below p, the opened number lies in [c2, c1), and the secret lies below c2 (r at most the opened number) or above c1 (r greater) |
| Interval.IntervalTest | src/ComputationContainer/Share/Compare.cpp:660-703 | a share of these answers through all three branches on c, for any public c1 and c2 |
| WrongAnswers.DrawsFor | src/ComputationContainer/Share/Compare.cpp:204-246 | every number below 2^64 is the outcome of draws that subRBVS accepts and the generator can make, every summand being below 2^63 - 1 |
| WrongAnswers.OrFails | src/ComputationContainer/Share/Compare.cpp:281-364 | masks that can be drawn and open to zero; the OR answers wrongly with them on all inputs |
| WrongAnswers.HalfRangeFails | src/ComputationContainer/Share/Compare.cpp:623-655 | possible draws, and the test run on them: it denies that p / 2 is in the lower half, for every sharing of p / 2 and any number of parties |
| WrongAnswers.ComparisonFails | src/ComputationContainer/Share/Compare.cpp:706-718 | possible draws, and the test run on them: it answers p - 1 < 1 |
| WrongAnswers.EqualityFails | src/ComputationContainer/Share/Compare.cpp:721-751 | possible draws, and the test run on them: it tells any two equal numbers apart |
| WrongAnswers.IntervalFails | src/ComputationContainer/Share/Compare.cpp:660-703 | possible draws of a number below p, and the test run on them: it denies 1 < 3 < 5 |
| FixedPoint.MyPow | src/ComputationContainer/FixedPoint/FixedPoint.hpp:15-29 | the loop computes a^n |
| FixedPoint.CutTowardsZero | src/ComputationContainer/FixedPoint/FixedPoint.hpp:145-156 | a quotient of integers is the one whose remainder is smaller than the divisor and has the sign of the dividend |
| FixedPoint.HalfOf | src/ComputationContainer/FixedPoint/FixedPoint.hpp:145-155 | a product with 0.5 is off by at most half a unit |
| FixedShare.ProductError | src/ComputationContainer/Share/Share.hpp:152-156 | a public factor costs less than one unit per party |
| FixedShare.ProductExact | src/ComputationContainer/Share/Share.hpp:152-156 | it costs nothing when the factor or all summands are whole numbers |
| FixedShare.OverPublic | src/ComputationContainer/Share/Share.hpp:205-209 | division by any public number but zero: d times the quotient is off by less than |d| units per party, and by less than m units for a positive whole number m |
| FixedShare.Multiply | src/ComputationContainer/Share/Share.hpp:103-127 | Beaver multiplication over fixed point: within 2n + 1 units, under one unit for whole triples, exact when also one operand is whole |
| FixedShare.MultiplyAll | src/ComputationContainer/Share/Share.hpp:269-315 | the same bounds for every element through one opening of all differences; unequal lengths throw |
| LowBits.RandBit | src/ComputationContainer/Share/Share.hpp:435-452 | twice the random bit is within n units of 2 [W > 0] plus Rest(W), the digits lost in inverting W, the first non-zero draw; for any number of parties |
| LowBits.LowBit | src/ComputationContainer/Share/Share.hpp:483-494 | for any y, negative ones too: for a whole N that 2y + rest rounds to, up to n units, the result is within 1001 n / 2 units of the lowest bit of N; for negative N within three times that of a digit -1, 0, 1 or 2 of the same parity |
| LowBits.DrawRestBound | src/ComputationContainer/Share/Share.hpp:435-452 | that rest is at most 1000 n units, and at most 7926 for up to eight parties, although the draw ranges up to 8000 |
| LowBits.NearestUnique | src/ComputationContainer/Share/Share.hpp:483-494 | a number well inside its rounding interval stands for no other N |
| SignTests.DriftDamped | src/ComputationContainer/Share/Compare.cpp:184-200 | the distance to a whole number before round i is at most the error of a digit, plus n, plus half of 10^8 divided by 2^i |
| SignTests.NextState | src/ComputationContainer/Share/Share.hpp:523-529 | a round keeps y close to what it leaves of the N found in the first round: N without its lowest bits, or for negative N a number up to zero that 2^i brings back near N |
| SignTests.SumBits | src/ComputationContainer/Share/Compare.cpp:190-198 | the weighted digits are close to N less 2^32 times what 32 rounds leave of it, for any N |
| SignTests.LTZ | src/ComputationContainer/Share/Compare.cpp:184-200 | for any s: opens near a whole T, for the N that 2^16 s rounds to with the first random bit's rest; T is at least one if and only if N is negative, and is the negated quotient of N by 2^32 from -2^32 on |
| SignTests.CutWithoutDraws | src/ComputationContainer/Share/Compare.cpp:11-50 | for up to 1000 parties 755 units never count as a difference and 771 always do; for up to eight parties the cut is exactly at 763 units, whatever is drawn |
| SignTests.Judge | src/ComputationContainer/Share/Compare.cpp:18-49 | the thresholds 0.95, 0.5 and 0.05: exactly which openings answer true, which answer false, and which end the program |
| SignTests.LessThan | src/ComputationContainer/Share/Compare.cpp:11-50 | for any two numbers: never exits, answers true if 2^17 times the difference exceeds 10^8 by more than n plus the rest of the first random bit, and false if it falls short by as much; true if and only if the difference is at least 763 units, for up to eight parties |
| SignTests.LessThanPublic | src/ComputationContainer/Share/Compare.cpp:97-138 | the same for a public right-hand side |
| SignTests.EqualTo | src/ComputationContainer/Share/Compare.cpp:55-95 | for any two numbers: never exits; true up to a distance of 755 units, false from 771 on; true if and only if the distance is at most 762, for up to eight parties |
| SignCut.DrawsExist | src/ComputationContainer/Share/Share.hpp:483-494 | for any number of parties there are draws of the scalar getLSBShare on which the operators run |
| SignCut.DrawsDecide | src/ComputationContainer/Share/Compare.cpp:11-50 | for 9 to 1000 parties some draws of the scalar getLSBShare force a difference of 763 units to be answered false, and others force true: no single cut exists |
| SignCut.BothAnswers | src/ComputationContainer/Share/Compare.cpp:11-50 | the operator, run with both draws on the same two shares, gives both answers |
| PublicEquality.EqualToPublic | src/ComputationContainer/Share/Compare.cpp:139-182 | a share against a public number: the reversed comparison is with n times that number, so the answer is true if and only if left is at most 762 units below right and at most 762 above n * right, for up to eight parties |
| PublicEquality.PublicEqualityIsRight | src/ComputationContainer/Share/Compare.cpp:139-182 | when this is the answer of == between two shares: an if-and-only-if for all numbers and any n |
| PublicEquality.TwoEqualsOne | src/ComputationContainer/Share/Compare.cpp:139-182 | with two parties or more, 2 == 1 is answered true |
| PublicEquality.MinusOneDiffers | src/ComputationContainer/Share/Compare.cpp:139-182 | with two parties or more, -1 == -1 is answered false |
| Floors.FloorOfStand | src/ComputationContainer/Share/Share.hpp:515-531 | for s that lies g units below a whole number, the floor of N / 2^16 is the floor of s if and only if the sign test decides g to be positive, and one too much otherwise |
| Floors.GetFloor | src/ComputationContainer/Share/Share.hpp:515-531 | for any s from -2^16 on: opens within a hundredth of the floor of s when s is 771 units or more below the next whole number, of one more when it is at most 755 below, and for up to eight parties exactly from 763 on; below -2^16 still near N / 2^16 |
| Floors.GetFloors | src/ComputationContainer/Share/Share.hpp:533-555 | the vector form keeps all of this on every element |
| Exchange.Server.ExchangeShare | src/ComputationContainer/Server/ComputationToComputationContainer/Server.cpp:24-41 | stores one value under sender and id, as a message of one share |
| Exchange.Server.ExchangeShares | src/ComputationContainer/Server/ComputationToComputationContainer/Server.cpp:44-68 | stores the values under their ids, one after the other |
| Exchange.Server.GetShare | src/ComputationContainer/Server/ComputationToComputationContainer/Server.cpp:71-81 | returns the stored value and erases its key, and nothing else |
| ExchangeProofs.StepKeepsInv | src/ComputationContainer/Share/Networking.hpp:69-147 | every step of every party keeps: results and ids equal to the lockstep execution, mailboxes holding exactly the messages in flight |
| ExchangeProofs.NoOverwrite | src/ComputationContainer/Server/ComputationToComputationContainer/Server.cpp:35-37 | a message never overwrites a stored value |
| SharingCode.SharizeOk | src/ComputationContainer/Share/Share.hpp:318-345 | sharize draws one id in either branch, keeps the ids well formed and leaves the same ids at every party |
| SharingCode.OneBitOk | src/ComputationContainer/Share/Compare.cpp:602-616 | the branches of PFtoBS, a share made from a value and a copy of the sharized share, draw one id each and leave every object with the same id |
| SharingCode.BitSharingOk | src/ComputationContainer/Share/Compare.cpp:597-619 | in either role PFtoBS draws three ids per bit, and the bit shares carry the first ones in order |
| SharingCode.InvertingOk | src/ComputationContainer/Share/Share.hpp:347-369 | getInv gathers the product under the same id at every party, and both branches of it leave the same ids |
| SharingCode.JobIsWellFormed | src/ComputationContainer/Share/AddressId.hpp:19-31 | every fixed sequence of these calls is a program whose branches are balanced and whose exchanged ids are distinct, for any n, sp and values: RunIsLockstep and MaximalRun apply to it |
| ExchangeRuns.RunIsLockstep | src/ComputationContainer/Share/AddressId.hpp:19-31 | in every interleaving the history of a party depends only on its name and position, and the ids of its objects only on its position, although party sp runs other branches |
| ExchangeRuns.OpeningsAgree | src/ComputationContainer/Share/Networking.hpp:88-147 | at every time of every run, whoever is past an opening has as its e-th result the sum of the n values that the parties hold for that share |
| ExchangeRuns.GatheringsAgree | src/ComputationContainer/Share/Networking.hpp:61-110 | party sp_id, once past a gathering, has the sum of the n values of all parties |
| ExchangeRuns.DealingSharesSecret | src/ComputationContainer/Share/Share.hpp:318-345 | once all parties are past a dealing, each other party has the piece that party sp_id made for it, and the pieces add up to the secret of party sp_id |
| ExchangeRuns.NoDeadlock | src/ComputationContainer/Server/ComputationToComputationContainer/Server.cpp:71-102 | while some party is unfinished, some step is possible |
| ExchangeRuns.RunsAreFinite | src/ComputationContainer/Server/ComputationToComputationContainer/Server.cpp:71-102 | every run has at most a computed number of steps |
| ExchangeRuns.MaximalRun | src/ComputationContainer/Server/ComputationToComputationContainer/Server.cpp:71-102 | a run that cannot go on has finished everywhere with the lockstep results, and all mailboxes are empty |
| JobResults.JobComputes | src/ComputationContainer/Share/Share.hpp:318-369 | in a finished run of any list of calls, call by call: an opening gave every party the sum of what all hold; sharize dealt pieces that add up to the secret of party sp_id; getInv opened its differences, gathered the sum of all values of u at sp_id and dealt; PFtoBS dealt once for each bit |
| AdaptiveRuns.AdaptiveLockstep | src/ComputationContainer/Share/Compare.cpp:214-230 | when the next call is chosen from the values opened so far, as in retry loops and branches on opened numbers: in every interleaving histories and ids are the lockstep ones, and what a party has decided to do depends on its position only |
| AdaptiveRuns.AdaptiveMaximal | src/ComputationContainer/Share/Compare.cpp:214-230 | such a run that cannot go on has done all that was decided at every party, with the lockstep results and empty mailboxes |
| AdaptiveRuns.AdaptiveRunsAreFinite | src/ComputationContainer/Share/Compare.cpp:214-230 | if the decisions come to an end in the lockstep execution, every run does |
| AdaptiveRuns.AdaptiveComputes | src/ComputationContainer/Share/Compare.cpp:214-230 | a finished run has done the calls of one job, the same at every party: by each party's own history every call was chosen from what had been opened before it, nothing was chosen after the last one, and each call has left the results that JobComputes states |
| AdaptiveRuns.RetryEndsForAll | src/ComputationContainer/Share/Compare.cpp:214-230 | all parties leave a loop that retries while zero is opened in the same round, with the same value that is not zero |
| BarrierProofs.StepKeepsInv | src/ManageContainer/Server/ManageToManageContainer/Cond_count.go:17-61 | every step keeps: the stored count is the number of peers that called, notifications taken and pending are those started, one handler per counter |
| BarrierRuns.RunIsBarrier | src/ManageContainer/Client/ManageToManageContainer/Client.go:96-113 | in no run does a party return from Sync before every party has entered it |
| BarrierProofs.WaiterWakes | src/ManageContainer/Server/ManageToManageContainer/Cond_count.go:52-61 | a waiter blocked on the channel finds a notification once all its peers have notified |
| BarrierRuns.RunLetsEverybodyThrough | src/ManageContainer/Client/ManageToManageContainer/Client.go:96-113 | every run is finite, and one that cannot go on has let everybody through |
| DecisionTree.MajorityClass | src/ComputationContainer/GBDT/SID3.cpp:13-29 | the class with the most rows, the last one among equals |
| DecisionTree.CreateTree | src/ComputationContainer/GBDT/SID3.cpp:219-247 | the returned tree, node by node: split exactly if attributes are left, the mask holds more than T.size() / 2 rows and at least one, and the oracle's value exceeds eps; with the oracle's value and attribute, the majority class of its rows, and one child per attribute value with the rows that have it and the other attributes |
| DecisionTree.TreeIsGrown | src/ComputationContainer/GBDT/SID3.cpp:219-247 | no other tree meets that description |
| DecisionTree.ChildrenPartition | src/ComputationContainer/GBDT/SID3.cpp:240-245 | the sizes of the children add up to the size of the node, for one-hot attributes |
| DecisionTree.LeavesHoldAllRows | src/ComputationContainer/GBDT/SID3.cpp:219-247 | the sizes of all leaves add up to the size of the root mask |
| DecisionTree.AtMostOneInternalChild | src/ComputationContainer/GBDT/SID3.cpp:236-245 | at most one child of a node is split again |
| DecisionTree.NodeBound | src/ComputationContainer/GBDT/SID3.cpp:219-247 | the number of nodes is at most one plus the number of attribute values, whatever the Gini values are |
| TreePrediction.Predict | src/ComputationContainer/GBDT/SID3.cpp:195-213 | the oblivious prediction over shares opens to the class at the end of the plain walk |
| TreePrediction.RowReachesItsLeaf | src/ComputationContainer/GBDT/SID3.cpp:195-247 | every training row is walked to the leaf that holds it, whose class is the one with the most rows of the leaf, the last one among equals |
| TreePrediction.JsonDescribes | src/ComputationContainer/GBDT/SID3.cpp:166-182 | the object of a party for a tree has, node by node, the Gini value, the size, its share of the class, the attribute of a split and the children in order |
| TreePrediction.FromJsonReads | src/ComputationContainer/GBDT/SID3.hpp:117-129 | the tree read from any JSON has these values of it, node by node |
| TreePrediction.JsonRoundTrip | src/ComputationContainer/GBDT/SID3.hpp:117-129 | writing a rebuilt tree gives the same JSON |
| TreePrediction.RebuiltTreeWalks | src/ComputationContainer/GBDT/SID3.hpp:117-129 | a rebuilt tree takes every row to a leaf with the same class and size |
| TreePrediction.RebuiltEverywhere | src/ComputationContainer/GBDT/SID3.cpp:166-182 | after each party has rebuilt its own tree, the walk still ends at the same shared class |
| Joins.IntersectionValueIndex | src/ComputationContainer/Client/ComputationToDbGate/ValueTable.cpp:45-69 | the pairs found through the map, which keeps the first of equal keys |
| Joins.IntersectionMeans | src/ComputationContainer/Client/ComputationToDbGate/ValueTable.cpp:45-69 | where the comparison of keys is equality, a pair is listed exactly if the values are equal and its second position is the first one of that value |
| Joins.UnionValueIndex | src/ComputationContainer/Client/ComputationToDbGate/ValueTable.cpp:100-124 | the positions of the second vector whose values the set does not hold, as computed by Extra |
| Joins.ExtraMeans | src/ComputationContainer/Client/ComputationToDbGate/ValueTable.cpp:100-124 | where the comparison of keys is equality, Extra holds exactly the positions of values that the first vector does not have |
| Joins.IntersectionSortedValueIndex | src/ComputationContainer/Client/ComputationToDbGate/ValueTable.cpp:71-98 | the merge over shares, with the secure comparisons, is the merge of the opened ids that takes ids within 762 units for equal: for any ids up to eight parties, and from nine parties on for ids that are equal or at least 771 units apart |
| Joins.MergedMeans | src/ComputationContainer/Client/ComputationToDbGate/ValueTable.cpp:71-98 | on strictly increasing ids that are equal or more than 762 units apart the merge lists exactly the positions with equal ids |
| Joins.MergeEqualsLookup | src/ComputationContainer/Client/ComputationToDbGate/ValueTable.cpp:45-98 | on strictly increasing ids more than 1000 units apart the merge finds the pairs of the map lookup, in the same order |
| TableJoins.PairsAreMatches | src/ComputationContainer/Client/ComputationToDbGate/ValueTable.cpp:45-69 | on such ids the pairs are exactly the positions with equal ids |
| TableJoins.ExtraRowsAreNew | src/ComputationContainer/Client/ComputationToDbGate/ValueTable.cpp:100-124 | on ids more than 1000 units apart or equal, vjoin adds exactly the rows with new ids |
| TableJoins.SchemaHoldsAllNames | src/ComputationContainer/Client/ComputationToDbGate/ValueTable.cpp:175-220 | a table joined by hjoin or hjoinShare has every column name of the two tables, and no other |
| TableJoins.SchemaHoldsCommonNames | src/ComputationContainer/Client/ComputationToDbGate/ValueTable.cpp:126-173 | a table joined by vjoin has exactly the column names that both tables have |
| TableJoins.HJoinShareEqualsHJoin | src/ComputationContainer/Client/ComputationToDbGate/ValueTable.cpp:248-285 | on such ids hjoinShare yields the table of hjoin, row for row |
| TableJoins.HJoin | src/ComputationContainer/Client/ComputationToDbGate/ValueTable.cpp:175-220 | on ids that are equal or more than 1000 units apart: one row for each row of the first table whose id the second has, in that order, made of all its cells and, under the new column names, the cells of the first row of the second table with that id; on any other ids still rows of pairs within 1000 units, in that order |
| TableJoins.HJoinShare | src/ComputationContainer/Client/ComputationToDbGate/ValueTable.cpp:248-285 | on ascending ids that are equal or more than 762 units apart: the same rows and columns; on any other ids rows of pairs within 762 units, in the order of the first table |
| TableJoins.VJoin | src/ComputationContainer/Client/ComputationToDbGate/ValueTable.cpp:126-173 | on ids that are equal or more than 1000 units apart: all rows of the first table, then exactly the rows of the second with new ids, in order, each cut to the common columns, which stand in the order of the first table |
| TableJoins.ChainJoins | src/ComputationContainer/Client/ComputationToDbGate/ValueTable.cpp:222-246 | in a chain of joins the code 0 joins by the map, 1 stacks, and any other joins by the merge, each time with these rows and columns |
| TableJoins.ChainTraced | src/ComputationContainer/Client/ComputationToDbGate/ValueTable.cpp:222-246 | for any list of joins every intermediate table fits its schema, and every cell stands in an input table under a column of the same name |
| TableJoins.ParseRead | src/ComputationContainer/Client/ComputationToDbGate/ValueTable.cpp:222-246 | returns the last table of that chain |
| JobPool.TransactionQueue.Pop | src/ComputationContainer/TransactionQueue/TransactionQueue.hpp:21-30 | takes the oldest element, and only that |
| JobPool.TransactionQueue.Push | src/ComputationContainer/TransactionQueue/TransactionQueue.hpp:31-38 | appends, within the bound |
| JobPool.FreshPool | src/ComputationContainer/Job/JobManager.hpp:41-46 | the pool starts with the ids 1 to 5, in order |
| JobPool.StepKeepsInv | src/ComputationContainer/Job/JobManager.hpp:83-156 | every step, also when a job throws or has no method, keeps: each id from 1 to 5 in exactly one place; the queue holding the latest requests and the loop the one before them; every party told of the requests in the order of arrival, each with the id taken for it; and running exactly the jobs begun and not ended, each with its own request and id |
| JobPool.PoolBounds | src/ComputationContainer/Job/JobManager.hpp:94-114 | at most five jobs run, returning an id never blocks, and the loop waits for an id only while five jobs run |
| JobPool.IdsAreUnique | src/ComputationContainer/Job/JobManager.hpp:83-117 | no two running jobs have the same id, and none of their ids is free |
| JobPool.RunKeepsInv | src/ComputationContainer/Job/JobManager.hpp:141-156 | all this at every time of every run |
| JobPool.TellsWhatIsPushed | src/ComputationContainer/Job/JobManager.hpp:83-156 | what a party has been told by any time of a run is a beginning of the list of requests pushed so far, each with the id taken for it |
| JobPool.LoopProgress | src/ComputationContainer/Job/JobManager.hpp:141-156 | while a request waits or is in hand the loop can take its next step, unless five jobs run, and those can end |
| JobPool.AnyJobEnds | src/ComputationContainer/Job/JobManager.hpp:89-120 | every running job can end next, in every way; then its id is free again and nothing that was told has changed |
| JobPool.QuietIsDone | src/ComputationContainer/Job/JobManager.hpp:141-156 | a state in which only new requests can go on: every party was told of all requests, every job has ended, and all five ids are free |
| JobPool.RunLength | src/ComputationContainer/Job/JobManager.hpp:141-156 | a request takes n + 4 steps: the steps taken and those left add up to n + 4 for each request that arrived, so without new requests every run ends |

## Left out

- PrefixOr.SubPrefixOr: asks for masks whose opened products are all non-zero, without which some OR inside is wrong; what its later steps make of wrong ORs is not described. The same holds for BitwiseLess.SubBitwiseLessThan, HalfRange.SubHalfLessThan, Compare.ComparisonTest and Interval.IntervalTest.
- RandomBits.SubRBS: the retry loop is bounded by the supplied stream of draws, of which one must be non-zero; that this happens with probability one is not stated. The same holds for LowBits.RandBit.
- SignTests.LTZ: at most 1000 parties, so that the errors stay clear of the thresholds. The doubles in round, sqrt and the thresholds are exact numbers here, so the rounding of doubles and of the 50-digit decimal in a division is not modelled; the cut at 763 units is that of exact numbers.
- PublicEquality.EqualToPublic: which overload `right < left` selects follows from the rules of C++ and the operators that Boost declares (t > u is not among them, so the public number is converted); Boost itself is not part of this model.
- FixedShare.OverPublic: division by zero, which goes through an infinite decimal.
- Share objects with fields: in the arithmetic modules shares are values of all parties at once, so copying, moving and updating one party's object in place are not modelled there; their effect on ids is (ShareIds, SharingCode).
- SharingCode.JobIsWellFormed: the constructions inside operators, which are the same for every party, are arbitrary lists of events; a share is opened in the call that constructs it.
- ExchangeRuns.OpeningsAgree: sums are over integers; field elements are the same sums modulo p. The job id and the thread id of a key are constant within one job and left out.
- Transport: gRPC, reconnecting and retries; every call takes effect exactly once, and no share is opened twice.
- TripleHandler's queues and their refill threshold; fixed-point triples are inputs, field triples are the constant ones.
- Share operator%, sqrt, exp, statistics and regression on doubles; the fixed-point inverse of a share.
- Strings, infinities and overflow of FixedPoint; values are unbounded integers.
- DecisionTree.CreateTree: the Gini values are an oracle that names an attribute that is left; masks are the opened bits, and tree nodes are values without sharing or aliasing.
- TreePrediction.JsonRoundTrip: numbers in the JSON keep their exact value, so the passage of the class through a double is left out, and the attribute of a leaf, which the program leaves uninitialised, is set to -1.
- TreePrediction.RebuiltTreeWalks: the same simplification of the JSON.
- TreePrediction.RebuiltEverywhere: the same simplification of the JSON.
- Joins.IntersectionValueIndex: an id within the tolerance of two keys is given the first inserted one, where std::map, whose order is then not transitive, finds the one its tree meets first.
- Joins.UnionValueIndex: the same for std::set.
- TableJoins.HJoin: inherits this choice, so which of several ids within the tolerance is joined is stated for ids that are equal or far enough apart only.
- TableJoins.VJoin: inherits it too.
- TableJoins.HJoinShare: on ids that do not ascend the merge skips rows, and which ones it skips is not described.
- SID3Regression and SGBM: the gradient loop runs to the mask count instead of the vector length, so no claim is made.
- TableJoins.ParseRead: tables are joined as all parties see them; reading and printing the cells as strings is left out.
- BarrierRuns.RunIsBarrier: one sync id, used once by every party; goroutines that stay blocked on a deleted counter's channel are counted but never collected.
- JobPool.RunKeepsInv: job threads are those of the party that triggers the jobs; the others are followed up to what they are told, and two jobs with one id on another party are not excluded. How a job selects its method and runs is not modelled.
- Secrecy, probability and running time; databases, configuration, logging and health checks.
