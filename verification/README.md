# btest-rs in Dafny

A model of the parts of btest-rs that carry its promises, with proofs: the EC-SRP5 key
agreement down to the field arithmetic, the quota accounting of the pro server, pacing and
loss accounting of the bandwidth test, the joining of multi-connection tests, and the
calendar code the quota windows depend on. `dafny verify dfyconfig.toml` checks everything.

## What is proved

**EC-SRP5** (`ModArith`, `NumberTheory`, `FieldSqrt`, `CurvePoints`, `ScalarMul`,
`ByteStrings`, `WeierstrassCurve`, `EcSrp5`, `Handshake`, `WrongPassword`, `Curve25519`). For
every odd prime `p` the field inverse is an inverse (through Fermat's little theorem), and the
modular square root is sound and complete in all its three branches, the Tonelli-Shanks loops
included. Point addition follows the rules of section 2.2.1 of SEC 1, and so is closed,
commutative and invertible; double-and-add is n-fold addition; decompression undoes compression;
hash-to-curve gives inverse points for the two parities; so client and server compute the same
`z` and accept each other's confirmation codes. Validator key, challenge hash and codes depend on
everything they are made from: a client with another `z` is refused by every hash function that
tells the hashed strings apart, and there are runs in which a wrong password is refused. Only four
facts are hypotheses of the agreement, each under its own name: primality (`IsPrime(P)`),
associativity of the group operation (`Associative`), the order of the generator (`OddOrder`, that
is r G = infinity), and the congruence 3a = 3 - A^2 inside `Params.Valid`; the last one is proved
for the constants in the code.

**Quota** (`Basics`, `Calendar`, `UsageDb`, `Quota`, `Bandwidth`, `BudgetRace`, `ProRun`). The
tables are rows keyed by name and date text. The byte budget is the least remainder over the
limits that are set; it is positive exactly when every check passes. The atomic counters are a
state machine over all interleavings of any number of tasks, in which no byte is lost unless a
status write fails or the tick that only prints takes it, and none is recorded twice. Over any
sequence of sessions that keep their budgets, on days that never go back, no limit is passed by
a usage that was within it. A session keeps its budget when spending is one step or one task
does it; with the two operations as coded and the amounts that the tasks of each kind of test
spend, exactly when at most one of them affords a write or a read, or nothing is recorded.

**Pacing and loss** (`Pacing`, `Loss`). A leaky-bucket bound for every trace, with speed
changes, and on top of it the rate bound, with exactly the loops for which it holds; from the
other side, that an iteration lasts no longer than its work or its interval, so that a loop that
is not held up reaches its target. The loss counter against the numbers that really are missing,
for every arrival sequence.

**Joining** (`Join`, `JoinTokens`, `JoinSizes`, `JoinCommands`, `JoinAdmission`, `JoinServer`,
`ProJoin`, `ProJoinAdmission`, `ProJoinServer`). The locked regions of the session map as a state machine, with theorems about
every interleaving of any number of connection handlers, and the handlers as methods of a server
object, each of which is proved to take one step of that machine.

## Where the code differs from what one would expect

- Doubling a point with y = 0 calls the field inverse on 0 and gives (-2x, 0), not infinity.
  `CurvePoints.AddFollowsRules` and `CurvePoints.AddClosure` say exactly when addition is
  right. The generator has odd order, so none of its multiples has y = 0; the hash-to-curve
  point can be such a point (`EcSrp5.ZeroCandidate`). `EcSrp5.UnblindingExact` names the one
  case that this loses, and `EcSrp5.UnblindingCanFail` shows that it can occur.
- The first message carries its length in one byte: a user name of more than 221 bytes, or one
  with a zero byte, is not accepted (`Handshake.Msg1Accepted`).
- The square root shifts a 32-bit one. It overflows for some input, p - 1 among them, exactly
  for the primes with 2^34 dividing p - 1 (`FieldSqrt.PrimeModSqrt`).
- The two atomic operations of `spend_budget` let two tasks take the budget through 0 to almost
  2^64 (`BudgetRace.TwoAffordWrap`), and then any usage that the test records can pass its limit.
  Which budgets a test keeps in every run: all of them on one TCP connection in one direction or
  on UDP in one direction; for several TCP connections that only send, those smaller than one
  write; for several that receive, only 0; for both directions on one connection, those smaller
  than one write, and on UDP also those below 4 (`BudgetRace.TestsThatKeepTheirBudget`). Which
  limits hold: `ProRun.TestMeters`.
- Bytes sent in a bidirectional test on one TCP connection never reach the totals, and so not
  the quota (`Bandwidth.BothModeRecordsNoTx`).
- `src/server_pro/server_loop.rs:384` passes the sent total in the inbound slot: the inbound
  usage rises by what was sent and the outbound usage by what was received
  (`ProRun.SlotsSwapped`). The quota theorems do not depend on the slot.
- u64::MAX marks an unlimited budget, so a limit of u64::MAX is no limit while nothing has been
  used; with some usage it is enforced like any other (`Quota.UnlimitedExactly`).
- Dates are compared as text. The year 10000 sorts before its predecessor
  (`Calendar.FiveDigitYearSortsFirst`).
- An ideal interval over half a second becomes one second. Between half a second and a second
  the sender is slower than its target, down to almost half (`Pacing.ReachesTarget`,
  `Pacing.AlmostHalfTheRate`); beyond a second it is faster (`Pacing.RateAbove`).
- A TCP loop that starts unlimited keeps its 256 KiB writes when a speed is set later, while the
  interval is computed for the packet size: it sends at more than twice the target, for
  32768-byte packets eight times. The rate bound holds exactly for UDP loops and for TCP loops
  that start with a speed (`Pacing.RateHoldsExactly`).
- The speed a peer's report sets is truncated to 32 bits; a report of a multiple of 2^30 bytes
  makes it 0, which lifts the limit (`Pacing.AdjustedSpeedExact`).
- Reordered packets count as losses that did not happen (`Loss.ReorderOverCounts`). The count is
  right exactly when every forward jump starts at the largest number so far and passes over
  nothing that ever arrives (`Loss.LostAtLeastMissing`). A gap over the end of the
  sequence numbers is under-counted (`Loss.InOrderAcrossWraps`).
- A session registered under a token in use replaces the other one, and the streams that had
  joined that one are dropped. In the standard server the first primary can then start a test
  with too many streams or with streams of another address, exactly when the second is at
  another address or announced more (`JoinTokens.ReusedTokenExactly`). A test can have one
  stream more than announced (`JoinTokens.OneMoreThanAnnounced`, `JoinSizes.SizesExactly`).
- In the pro server a session that announces a single connection never starts
  (`ProJoin.LonePrimaryWaits`), and a TCP command to receive or for both directions can be taken
  for a join (`ProJoin.TakenForJoinExactly`).

## Model

| member | source | states |
|---|---|---|
| FieldSqrt.ModInvCorrect | src/ecsrp5.rs:49-53 | for every odd prime p, the inverse is reduced and a times it is 1 mod p unless p divides a, and it is 0 for 0 |
| NumberTheory.Fermat | src/ecsrp5.rs:49-53 | Fermat's little theorem, by the binomial expansion |
| NumberTheory.RootBound | src/ecsrp5.rs:55-65 | a polynomial mod p with leading coefficient not divisible by p has no more distinct roots than its degree |
| FieldSqrt.EulerCriterion | src/ecsrp5.rs:55-65 | the symbol is 0, 1 or -1 exactly for multiples of p, squares, and non-squares |
| NumberTheory.NonResidueExists | src/ecsrp5.rs:117-120 | the search for a non-residue ends |
| FieldSqrt.TwoIsNonResidue | src/ecsrp5.rs:76-100 | 2^((p-1)/2) = -1 for p = 5 mod 8 |
| FieldSqrt.AtkinRoot | src/ecsrp5.rs:80-92 | Atkin's formula is a square root of every residue, so the final check never fails |
| FieldSqrt.AtkinSqrt | src/ecsrp5.rs:79-100 | the p = 5 mod 8 branch returns a root of every residue |
| FieldSqrt.QuarterPowerSqrt | src/ecsrp5.rs:102-107 | the p = 3 mod 4 branch returns a root of every residue |
| FieldSqrt.SplitPowerOfTwo | src/ecsrp5.rs:109-115 | p - 1 = q 2^s with q odd |
| FieldSqrt.FindNonResidue | src/ecsrp5.rs:117-120 | the first non-residue from 2 on |
| FieldSqrt.OrderSearch | src/ecsrp5.rs:127-132 | the least i with t^(2^i) = 1, below m |
| FieldSqrt.TonelliBody | src/ecsrp5.rs:126-138 | one pass lowers m and keeps x^2 = a t and t^(2^(m-1)) = 1, unless the shift overflows, exactly when m - i - 1 >= 32; for t = -1 that is when m >= 34 |
| FieldSqrt.TonelliLoop | src/ecsrp5.rs:126-138 | the loop ends, with x^2 = a unless a shift overflowed, which takes s >= 34, and does when t starts as -1 |
| FieldSqrt.TonelliShanks | src/ecsrp5.rs:109-141 | the general branch returns a root of every residue; it overflows only if 2^34 divides p - 1, and then for p - 1 |
| FieldSqrt.PrimeModSqrt | src/ecsrp5.rs:67-142 | for every odd prime: None exactly for non-squares; both roots x and p - x otherwise; (0, 0) for multiples of p; some input overflows exactly when 2^34 divides p - 1, and all that do are squares |
| CurvePoints.SlopeIsSlope | src/ecsrp5.rs:182-200 | the computed slope times dx is dy, or times 2y is 3x^2 + a |
| CurvePoints.AddFollowsRules | src/ecsrp5.rs:170-226 | the sum is the one of SEC 1, in every branch, exactly unless a point with y = 0 is doubled |
| CurvePoints.SumIsUnique | src/ecsrp5.rs:170-226 | the rules of SEC 1 determine the sum, as a reduced point |
| CurvePoints.SumOnCurve | src/ecsrp5.rs:170-226 | a sum by those rules is on the curve |
| CurvePoints.AddClosure | src/ecsrp5.rs:170-226 | the sum of reduced points of the curve is one; in the excluded case it is (-2x, 0), which is on the curve exactly when p divides 3x(3x^2 + a) |
| CurvePoints.VerticalDoubling | src/ecsrp5.rs:182-186 | what doubling a point with y = 0 gives |
| CurvePoints.AddCommutes | src/ecsrp5.rs:170-226 | addition commutes, the excluded case included |
| CurvePoints.NegateInverts | src/ecsrp5.rs:170-180 | (x, p - y) is the inverse, and the code's sum with it is infinity exactly unless y = 0 |
| ScalarMul.TimesAdd | src/ecsrp5.rs:228-240 | m P + n P = (m + n) P |
| ScalarMul.TimesTimes | src/ecsrp5.rs:228-240 | m (n P) = (m n) P |
| ScalarMul.TimesMod | src/ecsrp5.rs:419-422 | reducing a scalar mod the order changes nothing |
| ScalarMul.ScalarMul | src/ecsrp5.rs:228-240 | the loop computes double-and-add on the bits of the scalar |
| ScalarMul.ScalarMulSafe | src/ecsrp5.rs:228-240 | double-and-add is n-fold addition for every n, when no doubling meets y = 0 |
| ScalarMul.ScalarMulExact | src/ecsrp5.rs:228-240 | it is n-fold addition for all n exactly when no 2^i P has y = 0 |
| ScalarMul.PowerOfTwoFails | src/ecsrp5.rs:228-240 | otherwise the scalar at which it first goes wrong |
| ScalarMul.OddOrderIsSafe | src/ecsrp5.rs:228-240 | points of odd order never meet that case |
| ScalarMul.OddOrderMul | src/ecsrp5.rs:228-240 | so n (k G) by the code is (n k) G |
| ByteStrings.Pad32RoundTrip | src/ecsrp5.rs:268-277 | 32 big-endian bytes give the number back |
| ByteStrings.BigintTo32BytesWraps | src/ecsrp5.rs:344-351 | longer numbers are taken mod 2^256 |
| ByteStrings.BigEndian | src/ecsrp5.rs:301 | the first byte counts 256^k, where k bytes follow |
| WeierstrassCurve.ChangeOfVariable | src/ecsrp5.rs:252-286 | the Montgomery right-hand side at x - A/3 is the Weierstrass one at x |
| WeierstrassCurve.ComputeLift | src/ecsrp5.rs:279-298 | the point above x with the wanted parity, or infinity exactly when there is none |
| WeierstrassCurve.LiftUnique | src/ecsrp5.rs:279-298 | there is only one such point, as y and p - y differ in parity |
| WeierstrassCurve.LiftOnCurve | src/ecsrp5.rs:279-298 | it is a reduced point of the curve |
| WeierstrassCurve.LiftNegates | src/ecsrp5.rs:279-298 | the two parities give inverse points |
| WeierstrassCurve.LiftOfCompressed | src/ecsrp5.rs:268-298 | decompressing a compressed finite point gives it back |
| WeierstrassCurve.CompressedLift | src/ecsrp5.rs:268-298 | compressing a decompressed point gives the coordinate mod p |
| WeierstrassCurve.InfinityCompressed | src/ecsrp5.rs:268-298 | infinity survives compression exactly when no point has x = 0 |
| WeierstrassCurve.NewGenerator | src/ecsrp5.rs:251-266 | the generator is the lift of 9 with even y |
| WeierstrassCurve.GeneratorEven | src/ecsrp5.rs:264 | the y of a finite generator is even |
| WeierstrassCurve.GenPublicKey | src/ecsrp5.rs:300-304 | the compressed multiple of the generator |
| WeierstrassCurve.CounterWraps | src/ecsrp5.rs:306-319 | after k rounds the counter is the hash plus k mod 2^256 |
| WeierstrassCurve.Redp1 | src/ecsrp5.rs:306-319 | it stops at the first candidate that lifts, with that point |
| WeierstrassCurve.HashToCurveByCounter | src/ecsrp5.rs:306-319 | the point is the lift of the hash of a counter, which is the hash of the input plus k, for the least k for which that hash lifts |
| WeierstrassCurve.Redp1Opposite | src/ecsrp5.rs:306-319 | both parities stop at one candidate, with inverse points of the curve |
| EcSrp5.Derive | src/ecsrp5.rs:476-488 | the stored credentials are the salt and the compressed multiple of the generator by the hash of salt and hash of name, colon and password, with its parity |
| EcSrp5.ValidatorSeparates | src/ecsrp5.rs:321-332 | if the hash does not confuse the two hashed strings, two validator keys are equal exactly if names, passwords and salts are, for one name or two names without a colon |
| EcSrp5.ValidatorDepends | src/ecsrp5.rs:321-332 | for any two different triples of those some hash gives two different validator keys |
| EcSrp5.AddThenCancel | src/ecsrp5.rs:406-409 | adding a point and its inverse cancels, exactly unless infinity was blinded with a point with y = 0 |
| EcSrp5.KeyOnTheWire | src/ecsrp5.rs:560-561 | a finite public key comes out of compression as the multiple of the generator |
| EcSrp5.UnblindingExact | src/ecsrp5.rs:406-409 | unblinding the server key gives s_b G, with that exact exception |
| EcSrp5.ClientPointBlinded | src/ecsrp5.rs:403-423 | for any i of the client and any credentials of the server the client's point is ((i j + s_a) mod r) (s_b G + f - f'), with the blinding points f, f' of even y of the server's and of the client's verifier |
| EcSrp5.ZeroCandidate | src/ecsrp5.rs:306-319 | a candidate that p divides gives a hash-to-curve point with y = 0 |
| EcSrp5.UnblindingCanFail | src/ecsrp5.rs:406-409 | the exception occurs, for some hash function and secrets |
| EcSrp5.ClientScalars | src/ecsrp5.rs:416-422 | ((i j + s_a) mod r) (s_b G) = s_b (s_a + j i) G |
| EcSrp5.ServerScalars | src/ecsrp5.rs:557-564 | s_b (s_a G + j (i G)) = s_b (s_a + j i) G |
| EcSrp5.ClientPointValue | src/ecsrp5.rs:403-423 | the client's point is s_b (s_a + j i) G |
| EcSrp5.ServerPointValue | src/ecsrp5.rs:550-565 | the server's point is the same one |
| Handshake.FrameRoundTrip | src/ecsrp5.rs:375-386 | a frame gives back its payload, cut to its length mod 256 |
| Handshake.CutStream | src/ecsrp5.rs:503-507 | a stream that ends before the announced length is an end of file in every message |
| Handshake.Msg1Verdict | src/ecsrp5.rs:509-530 | what the server makes of every frame: no terminator, another name, a key that is cut, or the key and its parity |
| Handshake.Msg1Accepted | src/ecsrp5.rs:369-378 | the server reads the key back exactly for names of at most 221 bytes without a zero byte |
| Handshake.NamesOfBoth | src/ecsrp5.rs:509-519 | a name that fits is accepted by a server of that name and refused by any other as an authentication failure |
| Handshake.Msg2RoundTrip | src/ecsrp5.rs:539-546 | the client reads back key, parity and salt |
| Handshake.Msg2Verdict | src/ecsrp5.rs:387-399 | a frame of less than 49 bytes is too short; otherwise 32 bytes of key, one of parity and 16 of salt |
| Handshake.ProofAccepted | src/ecsrp5.rs:567-583 | if the hash does not confuse the two hashed strings, a third message made from some j and z is accepted for others exactly if they are the same |
| Handshake.WrongProofRefused | src/ecsrp5.rs:567-583 | for any other j or z some hash makes the server refuse |
| Handshake.ReplyAccepted | src/ecsrp5.rs:436-452 | the same for the fourth message, with j, the client code and z |
| Handshake.WrongReplyRefused | src/ecsrp5.rs:436-452 | for any other j or z some hash makes the client refuse |
| Handshake.ChallengeSeparates | src/ecsrp5.rs:411-414 | if the hash does not confuse the two pairs of keys, the challenge hashes are equal exactly if both keys are |
| Handshake.ChallengeDepends | src/ecsrp5.rs:411-414 | for any two different pairs of keys some hash gives different challenge hashes |
| Handshake.ClientStart | src/ecsrp5.rs:363-378 | the first message byte by byte: length, name, zero, key, parity |
| Handshake.ServerRespond | src/ecsrp5.rs:501-565 | the second message byte by byte, the challenge hash of both keys as sent, and the server's z; or the error of the first message |
| Handshake.ClientProve | src/ecsrp5.rs:381-434 | the third message is 32 and the hash of j and z, for the challenge hash of both keys as sent and the validator key of name, password and the salt received; or the error of the second message |
| Handshake.ServerVerify | src/ecsrp5.rs:567-594 | accepts exactly the hash of j and z, and answers with the hash of j, that code and z; otherwise end of file or an authentication failure |
| Handshake.ClientVerify | src/ecsrp5.rs:437-464 | accepts exactly the hash of j, the client's code and z |
| Handshake.BothComputeZ | src/ecsrp5.rs:403-423 | with one name and password both sides compute s_b (s_a + j i) G, from the keys as read off the wire, with i and j the hashes of the strings in the code |
| Handshake.Run | src/ecsrp5.rs:357-598 | with one name that fits the first message: both sides accept for one password, and for two passwords the server accepts exactly if the two codes agree and otherwise refuses, and so does the client; if the hash does not confuse the two code inputs, exactly if both have one z. A name that does not fit, another name, or a malformed message: the server refuses and the client does not accept |
| WrongPassword.SameZ | src/ecsrp5.rs:423-424 | two finite points give one z exactly if one is the other or its inverse |
| WrongPassword.WrongPasswordRefused | src/ecsrp5.rs:579-583 | for some hash, passwords and secrets all hypotheses hold and the codes differ, so that the server refuses the wrong password |
| Curve25519.ConstantsValid | src/ecsrp5.rs:21-45 | the constants meet every requirement, given that P is prime |
| Curve25519.Curve25519Trusted | src/ecsrp5.rs:21-45 | primality, associativity, and an odd r with r G = infinity give everything the handshake asks of the constants |
| Curve25519.CoefficientRelation | src/ecsrp5.rs:37-45 | 3a = 3 - A^2 mod P |
| Curve25519.DerivedConstants | src/ecsrp5.rs:252-257 | A/3 and the constant coefficient, as numbers |
| Curve25519.GeneratorFinite | src/ecsrp5.rs:264 | x = 9 lifts to a finite point of the curve and compresses to 9 |
| Calendar.CivilCorrect | src/server_pro/user_db.rs:622-637 | for every day count the loops end in a valid date that days-from-civil maps back |
| Calendar.CivilInverse | src/server_pro/user_db.rs:622-637 | every valid date from 1970 on is reached, from its own day count |
| Calendar.DateToday | src/server_pro/user_db.rs:617-638 | the two loops compute that date |
| Calendar.BsdMonthDay | src/syslog_logger.rs:73-90 | the other loops give the same month and day |
| Calendar.CivilOrder | src/server_pro/user_db.rs:622-637 | later days have later dates |
| Calendar.DateTextOrder | src/server_pro/user_db.rs:637 | up to year 9999 the text order of dates is their order |
| Calendar.DateTextReads | src/server_pro/user_db.rs:637 | year, month and day can be read off the ten characters |
| Calendar.FourDigitYears | src/server_pro/user_db.rs:637 | the last day with a four-digit year |
| Calendar.DayTextOrder | src/server_pro/user_db.rs:617-638 | text order is day order for all those days |
| Calendar.FiveDigitYearSortsFirst | src/server_pro/user_db.rs:637 | and not beyond them |
| UsageDb.UpsertSums | src/server_pro/user_db.rs:203-216 | an upsert adds to exactly the sums that select its key and date |
| UsageDb.UpsertRow | src/server_pro/user_db.rs:206-212 | the row of this key and date gets the amounts and one test more, or a row with one test is added; all other rows stay |
| UsageDb.UpsertKeepsUnique | src/server_pro/user_db.rs:206-212 | at most one row for each key and date |
| UsageDb.WindowSlides | src/server_pro/user_db.rs:233-261 | with no rows from the future, a windowed sum never rises as days go by |
| UsageDb.WindowDays | src/server_pro/user_db.rs:218-261 | which days, of those up to today, a window holds: today; the last eight; the last thirty-one |
| UsageDb.TodayInWindow | src/server_pro/user_db.rs:218-261 | today's rows are in all three windows |
| UsageDb.UserDb.RecordUsage | src/server_pro/user_db.rs:203-216 | user rows after recording |
| UsageDb.UserDb.RecordIpUsage | src/server_pro/user_db.rs:265-282 | address rows after recording: received is inbound, sent is outbound |
| Quota.QuotaManager.CheckUser | src/server_pro/quota.rs:151-197 | unknown, disabled, or the first limit reached of three: the user's own daily and weekly quota where positive, otherwise the default, and the default for the month, each against the bytes of its window; 0 is no limit |
| Quota.QuotaManager.CheckIp | src/server_pro/quota.rs:199-337 | connection limit, then the first limit reached: three on the sum, and three on received and three on sent bytes as the direction asks |
| Quota.QuotaManager.RemainingBudget | src/server_pro/quota.rs:387-460 | the least remainder over the limits that are set, or u64::MAX; that is the largest number of bytes that each of the twelve limits leaves room for |
| Quota.BudgetIsRoom | src/server_pro/quota.rs:387-460 | a number of bytes is within the budget exactly if each of the twelve limits, one by one, leaves room for it |
| Quota.BudgetPositiveIffOpen | src/server_pro/quota.rs:387-460 | a budget is positive exactly when no limit is reached |
| Quota.BudgetUnique | src/server_pro/quota.rs:387-460 | the tables and limits determine the budget |
| Quota.UnlimitedExactly | src/server_pro/quota.rs:388-397 | a budget is unlimited exactly when each set limit is u64::MAX with nothing used |
| Quota.QuotaManager.BudgetAgreesWithChecks | src/server_pro/quota.rs:151-460 | positive budget exactly when both checks succeed |
| Quota.RecordingRaises | src/server_pro/quota.rs:361-381 | the usages of that user and address rise by what was recorded in their direction, and no other usage rises; in the user's rows outbound is tx and inbound is rx |
| Quota.RecordingLowersBudget | src/server_pro/quota.rs:361-460 | recording never raises the budget and lowers it by at most the bytes recorded |
| Quota.QuotaManager.RecordUsage | src/server_pro/quota.rs:361-381 | both tables after recording |
| Quota.QuotaManager.Connect | src/server_pro/quota.rs:339-342 | one more connection of the address, no other count changes, no entry at 0 |
| Quota.QuotaManager.Disconnect | src/server_pro/quota.rs:344-352 | one less unless there is none, no other count changes, no entry at 0 |
| Quota.ConnectDisconnect | src/server_pro/quota.rs:339-352 | a disconnect undoes a connect |
| Bandwidth.BandwidthState.SpendBudget | src/bandwidth.rs:60-73 | pays or stops the test |
| Bandwidth.BandwidthState.StatusTick | src/server.rs:963-973 | a tick moves the live counters of the active directions into the totals and loses nothing |
| Bandwidth.SpendAlone | src/bandwidth.rs:60-73 | the two atomic steps without interference: pays, or stops the test |
| Bandwidth.TickAlone | src/server.rs:963-973 | the steps of a status task without interference: the live counters move into the totals |
| Bandwidth.BandwidthState.TcpRxLoop | src/server.rs:639-655 | alone, counts and pays for the longest prefix the budget affords |
| Bandwidth.BandwidthState.TcpTxLoop | src/server.rs:591-616 | alone, counts what was written, and pays for at most one write more |
| Bandwidth.StepConserves | src/server.rs:593-616 | every atomic step keeps the account of all bytes |
| Bandwidth.RunConserves | src/server.rs:574-694 | in every interleaving, total + pending + in hand + discarded is all that was counted, and counted + unused is all that was paid |
| Bandwidth.DiscardedOnlyThere | src/server.rs:595-603 | bytes are discarded only by a failed status write or by the printing tick |
| Bandwidth.NothingLost | src/server.rs:1054-1082 | without those two, total + pending + in hand is all that was counted |
| Bandwidth.RunKeepsBudget | src/bandwidth.rs:60-73 | budget left + paid is the initial budget, when spending is one step |
| Bandwidth.NoOvershoot | src/bandwidth.rs:49-73 | recorded <= counted <= paid <= budget |
| Bandwidth.OneSpenderNoOvershoot | src/bandwidth.rs:60-73 | the same for the two operations as coded, with one spending task |
| BudgetRace.SetupIsWellFormed | src/server.rs:410-552 | the tasks that each kind of test starts, with what they spend and record |
| BudgetRace.KindLoads | src/server.rs:410-916 | the amounts each task of each kind of test spends at once |
| BudgetRace.KindRecords | src/server.rs:410-552 | the tasks of each kind of test that record each direction, and the one that only prints |
| BudgetRace.OneAffordsNoOvershoot | src/bandwidth.rs:60-73 | as coded, recorded <= counted <= paid <= budget in every run in which only one task affords the budget |
| BudgetRace.NotReachedNotRecorded | src/server.rs:456-466 | a direction in which nobody counts, or nobody records, is never recorded |
| BudgetRace.RaceWraps | src/bandwidth.rs:63-71 | two tasks that load before either subtracts: what is missing wraps below 2^64 |
| BudgetRace.TwoAffordWrap | src/bandwidth.rs:60-73 | any two tasks that both afford a budget can do that, with amounts they really spend |
| BudgetRace.TwoSpendersOvershoot | src/bandwidth.rs:60-73 | after which any task can go on, and what it counts is recorded |
| BudgetRace.BudgetHoldsExactly | src/bandwidth.rs:60-73 | as coded, every run of a test records at most the budget exactly when at most one task affords it or nothing is recorded |
| BudgetRace.KindReaches | src/server.rs:410-552 | what is recorded: every active direction, but for what a bidirectional test on one TCP connection sends |
| BudgetRace.TestsThatKeepTheirBudget | src/server.rs:410-916 | for each kind of test, exactly the budgets it keeps |
| Bandwidth.BothModeRecordsNoTx | src/server.rs:456-466 | when only the printing tick takes the sent bytes, none are ever recorded |
| ProRun.RunProTest | src/server_pro/server_loop.rs:333-387 | budget, test and recording in order are one session step |
| ProRun.RecordedWithinBudget | src/server_pro/server_loop.rs:336-384 | what a session records fits the budget that was read, if spending is one step, or one task spends, or one affords it |
| ProRun.SessionKeepsMeter | src/server_pro/server_loop.rs:414-446 | after such a session any usage is within its limit or no higher than before |
| ProRun.QuotaSafety | src/server_pro/server_loop.rs:333-446 | over any sequence of sessions that keep their budgets, on non-decreasing days, no usage passes its limit or rises above it |
| ProRun.QuotaSafetyByField | src/server_pro/server_loop.rs:333-446 | the same for the three limits of every user and the nine of every address, one by one |
| ProRun.SessionDeterministic | src/server_pro/server_loop.rs:336-384 | the tables before and what the tasks did determine the tables after |
| ProRun.SlotsSwapped | src/server_pro/server_loop.rs:383-384 | a session raises the inbound usage by what was sent and the outbound usage by what was received, which is right exactly when the two are equal |
| ProRun.RacePassesLimit | src/server_pro/server_loop.rs:335-384 | when two tasks afford the budget and the test records what raises a usage, some run passes the limit, from any usage below it |
| ProRun.MeterHoldsExactly | src/server_pro/server_loop.rs:333-384 | as coded, a set limit holds in all runs of a test exactly when at most one task affords the budget or the test records nothing that raises the usage |
| ProRun.TestMeters | src/server_pro/server_loop.rs:356-384 | the same for each kind of test and column |
| Pacing.NoOverflow | src/bandwidth.rs:100-101 | no u64 step wraps |
| Pacing.RateAbove | src/bandwidth.rs:95-109 | the rate is within one part in iv of the target, exactly when the ideal interval is at most a second |
| Pacing.RateBelow | src/bandwidth.rs:103-108 | the interval exceeds the ideal one exactly when that rounds to 0 ns or lies between half a second and a second, and then by at most a factor of two, unless it is 1 ns; over half a second it is a second |
| Pacing.AlmostHalfTheRate | src/bandwidth.rs:103-108 | an input where the factor is over 1.999 |
| Pacing.IntervalAntitone | src/bandwidth.rs:95-109 | a faster target never gives a longer interval |
| Pacing.AdjustedSpeedExact | src/server.rs:1024-1028 | when the adjusted speed is one and a half times the report, and when it is 0 |
| Pacing.AdjustedSpeedWraps | src/server.rs:1024-1028 | otherwise it is off by a multiple of 2^32 |
| Pacing.AdvanceNextSend | src/bandwidth.rs:121-137 | advances by the interval, or to now exactly when that leaves it more than an interval behind; sleeps until then, and exactly if the sender is less than an interval late |
| Pacing.ThreeAtOnce | src/bandwidth.rs:111-137 | a late sender does send three packets at once |
| Pacing.NextPaceBounds | src/server.rs:612-635 | one iteration: the schedule advances by at least the interval now in force and never lags the send by more |
| Pacing.NextPaceExact | src/server.rs:612-635 | one iteration lasts until its interval is over, counted from the schedule or from a new speed, and no longer than its work if that already is |
| Pacing.KeepsUp | src/server.rs:583-636 | for every trace, send k comes no later than the sum over the iterations before it of the longer of work and interval |
| Pacing.OnTime | src/server.rs:583-636 | with work that fits the interval there is exactly one iteration for each interval |
| Pacing.ReachesTarget | src/server.rs:583-636 | and the target is reached exactly unless the interval is longer than the ideal one |
| Pacing.TakeTurn | src/server.rs:612-635 | the iteration as code, with a sleep of at most the interval, and none when the interval is over |
| Pacing.LoopIsPaced | src/client.rs:168-192 | after any number of iterations: s_k >= s_i - iv_i + sum of the intervals in between, and between two sends a sleep of at most the interval in force |
| Pacing.PacedSends | src/server.rs:583-636 | the loop: its sends for every trace, with both bounds and the interval for the speed in force |
| Pacing.FixedIntervalSpan | src/server.rs:884-899 | n sends at one interval span at least n - 3 intervals |
| Pacing.RateBound | src/server.rs:884-899 | when a send is one packet, the bits in any window of one speed exceed target times duration by at most the factor (iv + 1) / iv and three packets |
| Pacing.TwiceTheTarget | src/client.rs:162-177 | a TCP loop that started unlimited sends over twice what the interval allows with each write |
| Pacing.EightTimesTheTarget | src/client.rs:162-177 | 32768-byte packets, 262144000 bit/s: eight times |
| Pacing.UnlimitedStartExceeds | src/client.rs:162-187 | for every speed and packet size such a loop breaks the bound within five sends |
| Pacing.RateHoldsExactly | src/client.rs:162-187 | the bound holds in every run exactly for UDP loops and for TCP loops that start with a speed |
| Loss.CountLost | src/server.rs:918-954 | the counter after any arrivals, which is at least the number of missing ones |
| Loss.LostIsSumPassed | src/client.rs:398-406 | the counter is the sum over all numbers of how often each was passed over |
| Loss.MissingIsPassed | src/server.rs:933-942 | a number missing between the first and the largest was passed over, even with wraps |
| Loss.LostAtLeastMissing | src/server.rs:933-942 | counted is at least missing, and equal exactly when every forward jump starts at the largest number so far, not at the end of a round, and passes over nothing that ever arrives |
| Loss.ReorderOverCounts | src/server.rs:933-942 | 0, 2, 1, 3 counts two losses and misses nothing |
| Loss.InOrderExact | src/client.rs:398-406 | lost + received = last - first + 1 for increasing arrivals |
| Loss.InOrderAcrossWraps | src/client.rs:398-406 | in order, counted never exceeds the true losses, and is less exactly when a gap spans the end of a round |
| Join.TokenBits | src/server.rs:207-208 | both bytes of a token are odd, and every such word is a token |
| Join.TokenOtherBits | src/server.rs:207-208 | all other bits of a token are those of the random word |
| Join.SessionMap.JoinByToken | src/server.rs:154-181 | joins exactly a session of its address with room |
| Join.SessionMap.AnyRoom | src/server.rs:227-232 | finds a session with room exactly when there is one |
| Join.SessionMap.JoinAny | src/server.rs:248-255 | looks again and joins, or leaves the map alone |
| Join.StepSessions | src/server.rs:150-339 | every region keeps sessions within what they expect and of one address |
| Join.StepLocated | src/server.rs:150-349 | every region keeps every stream in one place |
| Join.EveryInterleaving | src/server.rs:150-349 | for all interleavings: at most `expected` joined streams, all from the peer; each stream in exactly one place; the joined streams of a test from one address |
| Join.CommandsNotTakenForToken | src/server.rs:155-179 | a UDP or TCP-transmit command is never taken for a token |
| JoinCommands.UdpNeverJoins | src/server.rs:150-370 | a connection that sends a UDP command is in no session, then or later |
| JoinCommands.CommandsThatScan | src/server.rs:184-232 | the commands that go on to look for any session: TCP with a connection count |
| JoinCommands.CommandOutcomes | src/server.rs:183-232 | every command that joins nothing: dropped if protocol or direction is invalid, on its own test if UDP or without a connection count, otherwise looking for a session with its count and token |
| JoinCommands.ScanJoinsExactly | src/server.rs:226-255 | whatever others do meanwhile, such a connection joins exactly when its scan found room, it authenticates, and there is room when it looks again |
| JoinCommands.TransmitCommandJoins | src/server.rs:226-255 | a run in which a TCP-transmit command joins |
| JoinAdmission.OnlyAdmitted | src/server.rs:150-349 | in every interleaving a primary that waits or has started a multi-connection test authenticated, and every stream in a session or joined to a test sent its token or authenticated |
| Join.FreshTokensAreSafe | src/server.rs:298-349 | with no token reused, a test has at most `expected` + 1 streams, all from the primary's address, and every session has a primary waiting for it |
| JoinTokens.UsedTokenIsWaitedOn | src/server.rs:302-339 | after runs without reuse, a used token is one that a primary waits on |
| JoinTokens.ReusedTokenExactly | src/server.rs:302-339 | registering under such a token lets some continuation without further reuse start an unsafe test exactly when the second primary is at another address or announced more |
| JoinTokens.MixedTestReachable | src/server.rs:207-341 | two primaries that draw the same word: a run from the start that ends with an unsafe test |
| JoinTokens.OneMoreThanAnnounced | src/server.rs:312-342 | for every announced count a run from the start begins a test with one stream more |
| JoinSizes.SizesExactly | src/server.rs:298-349 | with no token reused, the tests of a primary that announces n start with 1 to n + 1 streams, and each of these occurs |
| JoinSizes.PatientSizesExactly | src/server.rs:311-332 | without timeouts, with n or n + 1 streams, and both occur |
| JoinServer.Server.FirstMessage | src/server.rs:150-259 | the first region is one step of the state machine |
| JoinServer.Server.ScanSessions | src/server.rs:226-259 | the look for a session of this peer is one step |
| JoinServer.Server.FinishJoin | src/server.rs:240-255 | joining after authentication is one step, into a session with room if there is one |
| JoinServer.Server.FinishPrimary | src/server.rs:262-309 | registration is one step, which drops the streams of a session it replaces |
| JoinServer.Server.PollSession | src/server.rs:311-332 | a round of the waiting loop is one step |
| JoinServer.Server.StartTest | src/server.rs:334-349 | taking the session out is one step; with fresh tokens the streams are at most `expected` + 1 and of one address |
| JoinServer.Server.Guarantees | src/server.rs:127-349 | so all theorems about interleavings hold of the server |
| ProJoin.SessionMap.JoinOrStart | src/server_pro/server_loop.rs:135-181 | joins, and takes the session out exactly when that completes it |
| ProJoin.StepSessions | src/server_pro/server_loop.rs:135-304 | every region keeps pending sessions and tests in shape |
| ProJoin.StepStartedOnce | src/server_pro/server_loop.rs:155-176 | a session is pending once or started once |
| ProJoin.EveryInterleaving | src/server_pro/server_loop.rs:135-304 | for all interleavings: pending sessions have 1 to `expected` streams, tests exactly `expected` and from one address, each session at most one test, each stream in one place, tokens with both low bits |
| ProJoin.CommandsThatNeverJoin | src/server_pro/server_loop.rs:205-210 | a UDP or TCP-transmit command is never taken for a join |
| ProJoin.CommandOutcomes | src/server_pro/server_loop.rs:205-210 | a first message that joins nothing: a multi-connection test if not UDP and with a connection count, otherwise a single one |
| ProJoin.TakenForJoinExactly | src/server_pro/server_loop.rs:135-141 | in some reachable state a first message meets a session with room exactly when both its bytes are odd: the TCP commands to receive and for both directions |
| ProJoin.LonePrimaryWaits | src/server_pro/server_loop.rs:289-304 | a pending session can still start exactly when it announced two connections or more |
| ProJoinAdmission.OnlyAdmitted | src/server_pro/server_loop.rs:130-304 | in every interleaving the first stream of a pending or started session is that of a primary that was admitted, and all others sent its token |
| ProJoinServer.Server.FirstMessage | src/server_pro/server_loop.rs:130-181 | the first region is one step; a test it starts has exactly the announced streams, all of the address |
| ProJoinServer.Server.FinishPrimary | src/server_pro/server_loop.rs:183-304 | registration is one step |
| ProJoinServer.Server.Guarantees | src/server_pro/server_loop.rs:116-304 | so all theorems about interleavings hold of the server |

## Left out

- Sockets, tasks, timers, buffers, CLI, syslog and CSV output, the web dashboard and LDAP: input and output only. Time is an integer, the network arbitrary arrivals, a stream to the other side delivers what was written.
- SHA-256 is an arbitrary function to 32 bytes, random values are parameters, MD5 login is the outcome `ok`. Nothing is said about how hard these are to break; that a hash function tells two strings apart is a hypothesis (`EcSrp5.Separates`) where it is used.
- Associativity of the curve group, primality of P and the order of the generator are hypotheses, as said above.
- WeierstrassCurve.Redp1: requires that some candidate lifts, because whether one does depends on the hash.
- FieldSqrt.PrimeModSqrt: an overflowing shift ends the call, as in a build with overflow checks; what a build without them computes then is not modelled. For P it does not overflow.
- Handshake.Run: points on the wire are finite. With a wrong password the server refuses if the codes differ; how rarely they agree is not said. When the name is cut by the frame and what is left starts with the server's own name, nothing is said beyond that the client accepts only if the server does. Names are byte strings; that the server also rejects names that are not UTF-8 is not modelled, and the client's two kinds of refusal are one error.
- SQLite: upserts and sums by their meaning, without storage errors. Stored counters are taken to stay below 2^63. The `-7 days` and `-30 days` windows cover 8 and 31 dates. Windows do not reach before 1970, where there are no rows. Rust's and SQLite's today agree within a call.
- Bandwidth.RunKeepsBudget: for spending as one step; so is Bandwidth.NoOvershoot. What holds of the two operations as coded is in BudgetRace.
- BudgetRace.BudgetHoldsExactly: for budgets, and ProRun.MeterHoldsExactly for limits, up to 512 KiB below 2^64. A TCP sender of 0-byte packets spends nothing and is no spender. A packet sent in part counts as a part of what was paid.
- ProRun.QuotaSafety: for sessions that keep their budgets, which MeterHoldsExactly shows to be needed; sessions do not overlap and limits do not change; two sessions at once each get the whole budget. It is for limits below u64::MAX and days up to 9999-12-31.
- The database columns for a user's own monthly quota, which the checks do not read, and the single-direction upserts, which nothing calls after a test.
- The counters are unbounded numbers, but for the wrap of the budget. The 32-bit fields of status messages are not modelled.
- Pacing.PacedSends: failed UDP sends appear as time before the next send; the unlimited mode's yields as time after it.
- Join.EveryInterleaving: authentication is the outcome `ok`, a failed reply under the lock is `written`; what a test does with its streams is not part of this module.
- That the connection count is the number of live tests, and that pending pro sessions end: the pairing of connect and disconnect over the return paths supports neither.
- The quota enforcer, the codecs of commands and status messages, bandwidth strings, CPU load: easy members or floating point.
