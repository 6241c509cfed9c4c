/** The modem arithmetic: each user's character becomes a voltage, each user's
    voltage is spread over that user's code row, the spread rows are summed
    column by column into one combined signal, and a user's bit is recovered by
    correlating the combined signal with the user's code row and testing the
    sign of the C++ quotient. With orthogonal codes and no noise every user's
    bit comes back. */
module Modem {
  import opened IntArith
  import opened CodeBook

  /** `length_m`: the number of users, and the length of every code row,
      frame and combined signal. */
  const LengthM: nat := 4

  /** `voltage_0`, sent for the character '0'. */
  const Voltage0: int := 1

  /** `voltage_1`, sent for every other character. */
  const Voltage1: int := -1

  function VoltageOf(ch: char): int
  {
    if ch == '0' then Voltage0 else Voltage1
  }

  /** The bit a character stands for: 0 for '0', 1 for anything else. */
  function BitOf(ch: char): int
  {
    if ch == '0' then 0 else 1
  }

  /** The voltages of a string, one per character: +1 for '0' and -1 for
      every other character. */
  function Voltages(s: string): (v: seq<int>)
    ensures |v| == |s|
    ensures forall i :: 0 <= i < |s| ==> (v[i] == 1 <==> s[i] == '0') && (v[i] == -1 <==> s[i] != '0')
  {
    seq(|s|, i requires 0 <= i < |s| => VoltageOf(s[i]))
  }

  /** `convertStringToInts`: appends one voltage per character. */
  method ConvertStringToInts(input: string) returns (result: seq<int>)
    ensures result == Voltages(input)
  {
    result := [];
    for k := 0 to |input|
      invariant |result| == k
      invariant forall t :: 0 <= t < k ==> result[t] == VoltageOf(input[t])
    {
      result := result + [VoltageOf(input[k])];
    }
  }

  /** The sum over the first k users r of codes[r][c] * data[r]. */
  function ColumnSum(codes: Matrix, data: seq<int>, c: nat, k: nat): int
    requires k <= |codes| && k <= |data|
    requires forall r :: 0 <= r < k ==> c < |codes[r]|
  {
    if k == 0 then 0 else ColumnSum(codes, data, c, k - 1) + codes[k - 1][c] * data[k - 1]
  }

  /** The first n users' codes and data exist: n rows of at least n chips, and
      n data values. */
  ghost predicate Covers(codes: Matrix, data: seq<int>, n: nat)
  {
    |codes| >= n && |data| >= n && forall r :: 0 <= r < n ==> n <= |codes[r]|
  }

  /** The signal of the first k users over n chips. */
  function PartialSignal(codes: Matrix, data: seq<int>, n: nat, k: nat): (s: seq<int>)
    requires Covers(codes, data, n) && k <= n
    ensures |s| == n
  {
    seq(n, c requires 0 <= c < n => ColumnSum(codes, data, c, k))
  }

  /** The combined signal of n users: chip c is the sum over every user r of
      codes[r][c] * data[r]. */
  function Combined(codes: Matrix, data: seq<int>, n: nat): (s: seq<int>)
    requires Covers(codes, data, n)
    ensures |s| == n
    ensures forall c :: 0 <= c < n ==> s[c] == ColumnSum(codes, data, c, n)
  {
    PartialSignal(codes, data, n, n)
  }

  /** `scalar_sum_of_codes` without its printing: first every code row times
      its user's voltage, then the column sums of that matrix. */
  method ScalarSumOfCodes(spreadingCodes: Matrix, data: seq<int>) returns (summedVoltages: seq<int>)
    requires Covers(spreadingCodes, data, LengthM)
    ensures summedVoltages == Combined(spreadingCodes, data, LengthM)
  {
    var multDataSpCode: Matrix := seq(LengthM, _ => seq(LengthM, _ => 0));
    for row := 0 to LengthM
      invariant IsMatrix(multDataSpCode, LengthM, LengthM)
      invariant forall r, c :: 0 <= r < row && 0 <= c < LengthM ==>
                  multDataSpCode[r][c] == spreadingCodes[r][c] * data[r]
    {
      for col := 0 to LengthM
        invariant IsMatrix(multDataSpCode, LengthM, LengthM)
        invariant forall r, c :: 0 <= r < row && 0 <= c < LengthM ==>
                    multDataSpCode[r][c] == spreadingCodes[r][c] * data[r]
        invariant forall c :: 0 <= c < col ==> multDataSpCode[row][c] == spreadingCodes[row][c] * data[row]
      {
        multDataSpCode := multDataSpCode[row := multDataSpCode[row][col := spreadingCodes[row][col] * data[row]]];
      }
    }

    summedVoltages := seq(LengthM, _ => 0);
    for row := 0 to LengthM
      invariant |summedVoltages| == LengthM
      invariant forall c :: 0 <= c < row ==> summedVoltages[c] == ColumnSum(spreadingCodes, data, c, LengthM)
      invariant forall c :: row <= c < LengthM ==> summedVoltages[c] == 0
    {
      for col := 0 to LengthM
        invariant |summedVoltages| == LengthM
        invariant forall c :: 0 <= c < row ==> summedVoltages[c] == ColumnSum(spreadingCodes, data, c, LengthM)
        invariant forall c :: row < c < LengthM ==> summedVoltages[c] == 0
        invariant summedVoltages[row] == ColumnSum(spreadingCodes, data, row, col)
      {
        summedVoltages := summedVoltages[row := summedVoltages[row] + multDataSpCode[col][row]];
      }
    }
  }

  lemma {:induction false} ColumnSumPrefix(codes: Matrix, d1: seq<int>, d2: seq<int>, c: nat, k: nat)
    requires k <= |codes| && k <= |d1| && k <= |d2| && d1[..k] == d2[..k]
    requires forall r :: 0 <= r < k ==> c < |codes[r]|
    ensures ColumnSum(codes, d1, c, k) == ColumnSum(codes, d2, c, k)
    decreases k
  {
    if k > 0 {
      assert d1[k - 1] == d1[..k][k - 1] && d2[k - 1] == d2[..k][k - 1];
      assert d1[..k - 1] == d1[..k][..k - 1] && d2[..k - 1] == d2[..k][..k - 1];
      ColumnSumPrefix(codes, d1, d2, c, k - 1);
    }
  }

  /** The combined signal depends on the first n data values only: data past
      `length_m` is never read. */
  lemma CombinedReadsPrefix(codes: Matrix, data: seq<int>, n: nat)
    requires Covers(codes, data, n)
    ensures Covers(codes, data[..n], n)
    ensures Combined(codes, data, n) == Combined(codes, data[..n], n)
  {
    forall c | 0 <= c < n
      ensures ColumnSum(codes, data, c, n) == ColumnSum(codes, data[..n], c, n)
    {
      ColumnSumPrefix(codes, data, data[..n], c, n);
    }
  }

  /** The bit recovered for one user from the first n chips: 1 exactly when the
      C++ quotient inner_product / n is negative, that is when the inner
      product is at most -n. */
  function Decoded(combined: seq<int>, code: seq<int>, n: nat): (bit: int)
    requires n > 0 && |combined| >= n && |code| >= n
    ensures bit == 0 || bit == 1
    ensures bit == 1 <==> Dot(combined[..n], code[..n]) <= -(n as int)
  {
    var innerProduct := Dot(combined[..n], code[..n]);
    TruncDivNegative(innerProduct, n);
    if TruncDiv(innerProduct, n) < 0 then 1 else 0
  }

  /** `decode_signal`: accumulates the inner product chip by chip, then tests
      the sign of the truncated quotient. */
  method DecodeSignal(combinedSignal: seq<int>, spreadingCode: seq<int>) returns (bit: int)
    requires |combinedSignal| >= LengthM && |spreadingCode| >= LengthM
    ensures bit == Decoded(combinedSignal, spreadingCode, LengthM)
  {
    var innerProduct := 0;
    for i := 0 to LengthM
      invariant innerProduct == Dot(combinedSignal[..i], spreadingCode[..i])
    {
      assert combinedSignal[..i + 1][..i] == combinedSignal[..i];
      assert spreadingCode[..i + 1][..i] == spreadingCode[..i];
      innerProduct := innerProduct + combinedSignal[i] * spreadingCode[i];
    }
    bit := if TruncDiv(innerProduct, LengthM) < 0 then 1 else 0;
  }

  /** The decode loop of `main`: one bit per code row, in row order. */
  method DecodeUsers(combinedSignal: seq<int>, spreadingCodes: Matrix) returns (decodedUsers: seq<int>)
    requires |combinedSignal| >= LengthM
    requires forall r :: 0 <= r < |spreadingCodes| ==> |spreadingCodes[r]| >= LengthM
    ensures |decodedUsers| == |spreadingCodes|
    ensures forall r :: 0 <= r < |spreadingCodes| ==>
              decodedUsers[r] == Decoded(combinedSignal, spreadingCodes[r], LengthM)
  {
    decodedUsers := [];
    for r := 0 to |spreadingCodes|
      invariant |decodedUsers| == r
      invariant forall t :: 0 <= t < r ==> decodedUsers[t] == Decoded(combinedSignal, spreadingCodes[t], LengthM)
    {
      var decodedUser := DecodeSignal(combinedSignal, spreadingCodes[r]);
      decodedUsers := decodedUsers + [decodedUser];
    }
  }

  /** The sum over the first k users r of data[r] times the inner product of
      code row r with u. */
  function WeightedDots(codes: Matrix, data: seq<int>, n: nat, k: nat, u: seq<int>): int
    requires Covers(codes, data, n) && k <= n && |u| == n
  {
    if k == 0 then 0 else WeightedDots(codes, data, n, k - 1, u) + data[k - 1] * Dot(codes[k - 1][..n], u)
  }

  /** Correlation is linear: correlating the signal of k users with u is the
      data-weighted sum of each user's code correlated with u. */
  lemma {:induction false} PartialSignalDot(codes: Matrix, data: seq<int>, n: nat, k: nat, u: seq<int>)
    requires Covers(codes, data, n) && k <= n && |u| == n
    ensures Dot(PartialSignal(codes, data, n, k), u) == WeightedDots(codes, data, n, k, u)
    decreases k
  {
    if k == 0 {
      DotScaleLeft(0, u, u);
      assert PartialSignal(codes, data, n, 0) == Scale(0, u);
    } else {
      var prev := PartialSignal(codes, data, n, k - 1);
      var spread := Scale(data[k - 1], codes[k - 1][..n]);
      assert PartialSignal(codes, data, n, k) == Add(prev, spread);
      DotAdd(prev, spread, u);
      DotScaleLeft(data[k - 1], codes[k - 1][..n], u);
      PartialSignalDot(codes, data, n, k - 1, u);
    }
  }

  /** Against a Walsh-Hadamard code matrix, correlating with row r singles out
      user r: the weighted sum is data[r] * n once user r is included. */
  lemma {:induction false} WeightedDotsOrthogonal(codes: Matrix, data: seq<int>, n: nat, k: nat, r: nat)
    requires IsWalshHadamard(codes, n) && |data| >= n && k <= n && r < n
    ensures WeightedDots(codes, data, n, k, codes[r]) == if r < k then data[r] * n else 0
    decreases k
  {
    if k > 0 {
      WeightedDotsOrthogonal(codes, data, n, k - 1, r);
      assert codes[k - 1][..n] == codes[k - 1];
    }
  }

  /** Noiseless round trip: spreading a string's voltages with a Walsh-Hadamard
      matrix and decoding the combined signal against code row r gives back
      0 exactly when character r is '0'. */
  lemma RoundTrip(codes: Matrix, n: nat, s: string, r: nat)
    requires n > 0 && IsWalshHadamard(codes, n) && |s| >= n && r < n
    ensures Covers(codes, Voltages(s), n)
    ensures Decoded(Combined(codes, Voltages(s), n), codes[r], n) == BitOf(s[r])
  {
    var v := Voltages(s);
    var signal := Combined(codes, v, n);
    assert signal[..n] == signal && codes[r][..n] == codes[r];
    PartialSignalDot(codes, v, n, n, codes[r]);
    WeightedDotsOrthogonal(codes, v, n, n, r);
    assert Dot(signal, codes[r]) == v[r] * n;
  }

  /** `main` without its console I/O: generate the codes for `length_m` users,
      spread the input, and decode every user. Every user's bit comes back. */
  method DecodeFrame(input: string) returns (decodedUsers: seq<int>)
    requires |input| >= LengthM
    ensures |decodedUsers| == LengthM
    ensures forall r :: 0 <= r < LengthM ==> decodedUsers[r] == BitOf(input[r])
  {
    var spreadingCodes := ChannelSequenceOf(LengthM);
    ChannelSequenceOfPowerOfTwo(2);
    var data := ConvertStringToInts(input);
    var combinedSignal := ScalarSumOfCodes(spreadingCodes, data);
    decodedUsers := DecodeUsers(combinedSignal, spreadingCodes);
    forall r | 0 <= r < LengthM
      ensures decodedUsers[r] == BitOf(input[r])
    {
      RoundTrip(spreadingCodes, LengthM, input, r);
    }
  }

  /** The input "0101" with the four codes of `length_m == 4`: the combined
      signal is [0, 4, 0, 0] and the users decode to 0, 1, 0, 1. */
  lemma WorkedExample()
    ensures var codes := ChannelSequenceOf(LengthM);
            && Covers(codes, Voltages("0101"), LengthM)
            && Combined(codes, Voltages("0101"), LengthM) == [0, 4, 0, 0]
            && (forall r :: 0 <= r < LengthM ==>
                  Decoded([0, 4, 0, 0], codes[r], LengthM) == [0, 1, 0, 1][r])
  {
    ChannelSequenceOfFour();
    var codes := ChannelSequenceOf(LengthM);
    var v := Voltages("0101");
    assert v == [1, -1, 1, -1];
    ChannelSequenceOfPowerOfTwo(2);
    forall r | 0 <= r < LengthM
      ensures Decoded(Combined(codes, v, LengthM), codes[r], LengthM) == [0, 1, 0, 1][r]
    {
      RoundTrip(codes, LengthM, "0101", r);
    }
    var signal := Combined(codes, v, LengthM);
    forall c | 0 <= c < LengthM
      ensures signal[c] == [0, 4, 0, 0][c]
    {
      ColumnSumOfFour(codes, v, c);
    }
  }

  lemma ColumnSumOfFour(codes: Matrix, data: seq<int>, c: nat)
    requires |codes| >= 4 && |data| >= 4
    requires forall r :: 0 <= r < 4 ==> c < |codes[r]|
    ensures ColumnSum(codes, data, c, 4)
            == codes[0][c] * data[0] + codes[1][c] * data[1] + codes[2][c] * data[2] + codes[3][c] * data[3]
  {
    assert ColumnSum(codes, data, c, 1) == codes[0][c] * data[0];
    assert ColumnSum(codes, data, c, 2) == ColumnSum(codes, data, c, 1) + codes[1][c] * data[1];
    assert ColumnSum(codes, data, c, 3) == ColumnSum(codes, data, c, 2) + codes[2][c] * data[2];
  }
}
