/**
 * Instruction data of the five builders: discriminator, then little-endian arguments
 * (python/src/telaro_ars/binding.py).
 */
module Binding {
  import opened Events
  import opened Bytes

  // ---------------------------------------------------------------- little-endian integers

  function Pow256(n: nat): (p: nat)
    ensures p >= 1
  {
    if n == 0 then 1 else 256 * Pow256(n - 1)
  }

  /** `value.to_bytes(n, "little")` */
  function LeBytes(value: nat, n: nat): (bytes: seq<byte>)
    ensures |bytes| == n
  {
    if n == 0 then [] else [value % 256] + LeBytes(value / 256, n - 1)
  }

  /** The sum of bytes[i] * 256^i. */
  function FromLe(bytes: seq<byte>): nat {
    if bytes == [] then 0 else bytes[0] + 256 * FromLe(bytes[1..])
  }

  lemma {:induction false} LeRoundTrip(value: nat, n: nat)
    requires value < Pow256(n)
    ensures FromLe(LeBytes(value, n)) == value
  {
    if n > 0 {
      LeRoundTrip(value / 256, n - 1);
      assert LeBytes(value, n)[1..] == LeBytes(value / 256, n - 1);
    }
  }

  lemma {:induction false} LeCanonical(bytes: seq<byte>)
    ensures FromLe(bytes) < Pow256(|bytes|)
    ensures LeBytes(FromLe(bytes), |bytes|) == bytes
  {
    if bytes != [] {
      LeCanonical(bytes[1..]);
      assert FromLe(bytes) / 256 == FromLe(bytes[1..]) && FromLe(bytes) % 256 == bytes[0];
    }
  }

  /** Byte i is digit i of the value in base 256, the lowest first. */
  lemma {:induction false} LeDigit(value: nat, n: nat, i: nat)
    requires i < n
    ensures LeBytes(value, n)[i] == (value / Pow256(i)) % 256
  {
    if i > 0 {
      LeDigit(value / 256, n - 1, i - 1);
      DivideTwice(value, Pow256(i - 1));
    }
  }

  lemma DivideTwice(value: nat, p: nat)
    requires p >= 1
    ensures (value / 256) / p == value / (256 * p)
  {
    var q, r := value / (256 * p), value % (256 * p);
    assert value == 256 * (p * q) + r;
    assert value / 256 == p * q + r / 256;
    assert r / 256 < p;
    QuotientOf(value / 256, p, q, r / 256);
  }

  lemma QuotientOf(a: nat, p: int, q: nat, r: nat)
    requires p >= 1 && a == p * q + r && r < p
    ensures a / p == q
  {
    var whole, rest := a / p, a % p;
    assert a == p * whole + rest;
    assert p * whole - p * q == p * (whole - q);
    Multiple(p, whole - q);
  }

  lemma Multiple(p: int, d: int)
    requires p >= 1
    ensures d >= 1 ==> p * d >= p
    ensures d <= -1 ==> p * d <= -p
  {
  }

  const U8_MAX := 0xFF
  const U16_MAX := 0xFFFF
  const U64_MAX := 0xFFFF_FFFF_FFFF_FFFF

  lemma Widths()
    ensures Pow256(2) == U16_MAX + 1 && Pow256(8) == U64_MAX + 1
  {
    assert Pow256(2) == 256 * Pow256(1) && Pow256(1) == 256 * Pow256(0);
    assert Pow256(4) == 256 * Pow256(3) && Pow256(3) == 256 * Pow256(2);
    assert Pow256(6) == 256 * Pow256(5) && Pow256(5) == 256 * Pow256(4);
    assert Pow256(8) == 256 * Pow256(7) && Pow256(7) == 256 * Pow256(6);
  }

  // ---------------------------------------------------------------- builders

  /** The first eight bytes of the hashes of the five instruction names. */
  datatype Discriminators = Discriminators(
    viewBond: seq<byte>,
    resolveClaim: seq<byte>,
    withdrawBond: seq<byte>,
    processPoolYield: seq<byte>,
    requestCredit: seq<byte>)
  {
    predicate Valid() {
      |viewBond| == |resolveClaim| == |withdrawBond| == |processPoolYield| == |requestCredit| == 8
    }
  }

  /** One constructor for each place that raises `ValueError`. */
  datatype RangeError = ScoreOutOfRange | BondOutOfRange | AmountOutOfRange | ActionOutOfRange

  function BuildViewBond(d: Discriminators, minBond: int, minScore: int): Result<seq<byte>, RangeError> {
    if !(0 <= minScore <= U16_MAX) then Err(ScoreOutOfRange)
    else if !(0 <= minBond <= U64_MAX) then Err(BondOutOfRange)
    else Ok(d.viewBond + LeBytes(minBond, 8) + LeBytes(minScore, 2))
  }

  function U64Le(value: int): Result<seq<byte>, RangeError> {
    if !(0 <= value <= U64_MAX) then Err(AmountOutOfRange) else Ok(LeBytes(value, 8))
  }

  function BuildResolveClaim(d: Discriminators, action: int): Result<seq<byte>, RangeError> {
    if !(0 <= action <= U8_MAX) then Err(ActionOutOfRange) else Ok(d.resolveClaim + [action])
  }

  function WithAmount(disc: seq<byte>, amount: int): Result<seq<byte>, RangeError> {
    match U64Le(amount)
    case Err(error) => Err(error)
    case Ok(bytes) => Ok(disc + bytes)
  }

  function BuildWithdrawBond(d: Discriminators, amount: int): Result<seq<byte>, RangeError> {
    WithAmount(d.withdrawBond, amount)
  }

  function BuildProcessPoolYield(d: Discriminators, amount: int): Result<seq<byte>, RangeError> {
    WithAmount(d.processPoolYield, amount)
  }

  function BuildRequestCredit(d: Discriminators, amount: int): Result<seq<byte>, RangeError> {
    WithAmount(d.requestCredit, amount)
  }

  // ---------------------------------------------------------------- round trip

  datatype Call =
    | ViewBond(minBond: int, minScore: int)
    | ResolveClaim(action: int)
    | WithdrawBond(amount: int)
    | ProcessPoolYield(amount: int)
    | RequestCredit(amount: int)

  function Encode(d: Discriminators, call: Call): Result<seq<byte>, RangeError> {
    match call
    case ViewBond(minBond, minScore) => BuildViewBond(d, minBond, minScore)
    case ResolveClaim(action) => BuildResolveClaim(d, action)
    case WithdrawBond(amount) => BuildWithdrawBond(d, amount)
    case ProcessPoolYield(amount) => BuildProcessPoolYield(d, amount)
    case RequestCredit(amount) => BuildRequestCredit(d, amount)
  }

  /** Every argument fits its width. */
  predicate Fits(call: Call) {
    match call
    case ViewBond(minBond, minScore) => 0 <= minBond < Pow256(8) && 0 <= minScore < Pow256(2)
    case ResolveClaim(action) => 0 <= action < 256
    case WithdrawBond(amount) => 0 <= amount < Pow256(8)
    case ProcessPoolYield(amount) => 0 <= amount < Pow256(8)
    case RequestCredit(amount) => 0 <= amount < Pow256(8)
  }

  /** A reader of instruction data, as the program would be: dispatch on the discriminator, then the arguments. */
  function Decode(d: Discriminators, data: seq<byte>): Option<Call> {
    if |data| < 8 then None
    else
      var disc, args := data[..8], data[8..];
      if |args| == 10 && disc == d.viewBond then Some(ViewBond(FromLe(args[..8]), FromLe(args[8..])))
      else if |args| == 1 && disc == d.resolveClaim then Some(ResolveClaim(args[0]))
      else if |args| == 8 && disc == d.withdrawBond then Some(WithdrawBond(FromLe(args)))
      else if |args| == 8 && disc == d.processPoolYield then Some(ProcessPoolYield(FromLe(args)))
      else if |args| == 8 && disc == d.requestCredit then Some(RequestCredit(FromLe(args)))
      else None
  }

  /** Only the three instructions with one u64 argument can be mistaken for one another. */
  predicate Unambiguous(d: Discriminators) {
    && d.withdrawBond != d.processPoolYield
    && d.withdrawBond != d.requestCredit
    && d.processPoolYield != d.requestCredit
  }

  lemma RefusedIffOutOfRange(d: Discriminators, call: Call)
    ensures Encode(d, call).Ok? <==> Fits(call)
    ensures call.ViewBond? ==>
      (Encode(d, call) == Err(ScoreOutOfRange) <==> !(0 <= call.minScore < Pow256(2)))
  {
    Widths();
  }

  lemma AmountRoundTrip(disc: seq<byte>, amount: int)
    requires |disc| == 8 && 0 <= amount < Pow256(8)
    ensures WithAmount(disc, amount).Ok?
    ensures var data := WithAmount(disc, amount).value;
            |data| == 16 && data[..8] == disc && FromLe(data[8..]) == amount
  {
    Widths();
    LeRoundTrip(amount, 8);
    assert (disc + LeBytes(amount, 8))[8..] == LeBytes(amount, 8);
  }

  lemma ViewBondRoundTrip(d: Discriminators, minBond: int, minScore: int)
    requires d.Valid() && Fits(ViewBond(minBond, minScore))
    ensures BuildViewBond(d, minBond, minScore).Ok?
    ensures var data := BuildViewBond(d, minBond, minScore).value;
            && |data| == 18 && data[..8] == d.viewBond
            && FromLe(data[8..][..8]) == minBond && FromLe(data[8..][8..]) == minScore
  {
    Widths();
    LeRoundTrip(minBond, 8);
    LeRoundTrip(minScore, 2);
    var data := d.viewBond + LeBytes(minBond, 8) + LeBytes(minScore, 2);
    assert data[8..][..8] == LeBytes(minBond, 8) && data[8..][8..] == LeBytes(minScore, 2);
  }

  /** The layout of each builder: its own discriminator, then its arguments at fixed offsets. */
  lemma Layouts(d: Discriminators, minBond: nat, minScore: nat, action: nat, amount: nat)
    requires d.Valid()
    requires minBond < Pow256(8) && minScore < Pow256(2) && action < 256 && amount < Pow256(8)
    ensures BuildViewBond(d, minBond, minScore) == Ok(d.viewBond + LeBytes(minBond, 8) + LeBytes(minScore, 2))
    ensures BuildResolveClaim(d, action) == Ok(d.resolveClaim + [action])
    ensures BuildWithdrawBond(d, amount) == Ok(d.withdrawBond + LeBytes(amount, 8))
    ensures BuildProcessPoolYield(d, amount) == Ok(d.processPoolYield + LeBytes(amount, 8))
    ensures BuildRequestCredit(d, amount) == Ok(d.requestCredit + LeBytes(amount, 8))
  {
    Widths();
  }

  /** What was encoded is read back, instruction and arguments. */
  lemma DecodeOfEncode(d: Discriminators, call: Call)
    requires d.Valid() && Unambiguous(d) && Fits(call)
    ensures Encode(d, call).Ok? && Decode(d, Encode(d, call).value) == Some(call)
  {
    match call
    case ViewBond(minBond, minScore) => ViewBondRoundTrip(d, minBond, minScore);
    case ResolveClaim(action) =>
      assert (d.resolveClaim + [action])[..8] == d.resolveClaim;
    case WithdrawBond(amount) => AmountRoundTrip(d.withdrawBond, amount);
    case ProcessPoolYield(amount) => AmountRoundTrip(d.processPoolYield, amount);
    case RequestCredit(amount) => AmountRoundTrip(d.requestCredit, amount);
  }

  lemma DecodedFits(d: Discriminators, data: seq<byte>)
    requires Decode(d, data).Some?
    ensures Fits(Decode(d, data).value)
  {
    LeCanonical(data[8..]);
    if |data| == 18 {
      LeCanonical(data[8..][..8]);
      LeCanonical(data[8..][8..]);
    }
  }

  /** And what can be read is exactly what the builders write: the encoding is canonical. */
  lemma EncodeOfDecode(d: Discriminators, data: seq<byte>)
    requires d.Valid() && Decode(d, data).Some?
    ensures Encode(d, Decode(d, data).value) == Ok(data)
  {
    var args := data[8..];
    DecodedFits(d, data);
    RefusedIffOutOfRange(d, Decode(d, data).value);
    LeCanonical(args);
    assert data == data[..8] + args;
    if |data| == 18 {
      LeCanonical(args[..8]);
      LeCanonical(args[8..]);
      assert data == data[..8] + args[..8] + args[8..];
    } else if |data| == 9 {
      assert args == [args[0]];
    }
  }

  ghost predicate Injective(d: Discriminators) {
    forall a, b :: Fits(a) && Fits(b) && Encode(d, a) == Encode(d, b) ==> a == b
  }

  /** Different calls never share their data, exactly when the three u64 instructions are told apart. */
  lemma InjectiveIffUnambiguous(d: Discriminators)
    requires d.Valid()
    ensures Injective(d) <==> Unambiguous(d)
  {
    if Unambiguous(d) {
      forall a, b | Fits(a) && Fits(b) && Encode(d, a) == Encode(d, b)
        ensures a == b
      {
        DecodeOfEncode(d, a);
        DecodeOfEncode(d, b);
      }
    } else {
      var w, p, r := WithdrawBond(0), ProcessPoolYield(0), RequestCredit(0);
      assert Fits(w) && Fits(p) && Fits(r);
      assert Encode(d, w) == Encode(d, p) || Encode(d, w) == Encode(d, r) || Encode(d, p) == Encode(d, r);
    }
  }
}
