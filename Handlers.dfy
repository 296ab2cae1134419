/** The upload sink (`empty`) and the download source (`garbage`) of the backend. */
module Handlers {
  import opened Wrappers
  import opened Text
  import opened WebTypes

  /** Size of the shared random payload: one MiB. */
  const ChunkSize: nat := 1048576
  /** Chunks sent when the client gives no usable `ckSize`. */
  const DefaultChunks: int := 4
  /** Upper cap on the chunk count. */
  const MaxChunks: int := 1024

  const MinInt64: int := -0x8000_0000_0000_0000
  const MaxInt64: int := 0x7FFF_FFFF_FFFF_FFFF

  /** A query parameter as the handler reads it: an absent parameter reads as "". */
  function FormValue(param: Option<string>): (v: string)
    ensures param.None? ==> v == ""
    ensures param.Some? ==> v == param.value
  {
    match param
    case None => ""
    case Some(s) => s
  }

  /**
   * Base-10, 64-bit signed integer parsing: an optional '+' or '-', then one or more
   * ASCII digits and nothing else; a value outside the 64-bit range is an error.
   */
  function ParseInt64(s: string): (r: Option<int>)
    ensures r.Some? ==> s != [] && MinInt64 <= r.value <= MaxInt64
  {
    if s == [] then None
    else
      var digits := if s[0] == '+' || s[0] == '-' then s[1..] else s;
      if digits == [] || !AllDigits(digits) then None
      else
        var v: int := if s[0] == '-' then 0 - DecimalValue(digits) else DecimalValue(digits);
        if MinInt64 <= v <= MaxInt64 then Some(v) else None
  }

  /** Every 64-bit integer written in decimal parses back to itself. */
  lemma ParseInt64OfIntToString(v: int)
    requires MinInt64 <= v <= MaxInt64
    ensures ParseInt64(IntToString(v)) == Some(v)
  {
    var s := IntToString(v);
    if v < 0 {
      assert s[1..] == NatToString(-v);
      DecimalValueOfNatToString(-v);
    } else {
      DecimalValueOfNatToString(v);
    }
  }

  /** A decimal numeral above the 64-bit range, with or without a '+', is refused. */
  lemma ParseInt64Overflow(n: nat, plus: bool)
    requires n > MaxInt64
    ensures ParseInt64((if plus then "+" else "") + NatToString(n)) == None
  {
    var digits := NatToString(n);
    DecimalValueOfNatToString(n);
    if plus {
      var s := "+" + digits;
      assert s[1..] == digits;
    } else {
      assert "" + digits == digits;
      assert digits[0] != '+' && digits[0] != '-';
    }
  }

  /** A negative decimal numeral below the 64-bit range is refused. */
  lemma ParseInt64Underflow(n: nat)
    requires n > -MinInt64
    ensures ParseInt64("-" + NatToString(n)) == None
  {
    var s := "-" + NatToString(n);
    assert s[1..] == NatToString(n);
    DecimalValueOfNatToString(n);
  }

  /** `k` zero digits. */
  function Zeros(k: nat): (z: string)
    ensures |z| == k && AllDigits(z) && forall i :: 0 <= i < k ==> z[i] == '0'
  {
    if k == 0 then [] else Zeros(k - 1) + ['0']
  }

  /** A leading zero digit does not change a decimal value. */
  lemma {:induction false} DecimalValueLeadingZero(t: string)
    requires AllDigits(t)
    ensures DecimalValue(['0'] + t) == DecimalValue(t)
  {
    if t != [] {
      var u := ['0'] + t;
      assert u[..|u| - 1] == ['0'] + t[..|t| - 1];
      DecimalValueLeadingZero(t[..|t| - 1]);
    }
  }

  /** Any number of leading zero digits does not change a decimal value. */
  lemma {:induction false} DecimalValueZeros(k: nat, t: string)
    requires AllDigits(t)
    ensures AllDigits(Zeros(k) + t) && DecimalValue(Zeros(k) + t) == DecimalValue(t)
  {
    if k > 0 {
      DecimalValueZeros(k - 1, t);
      assert Zeros(k) + t == ['0'] + (Zeros(k - 1) + t) by {
        assert Zeros(k) == ['0'] + Zeros(k - 1) by {
          assert forall i :: 0 <= i < k ==> Zeros(k)[i] == (['0'] + Zeros(k - 1))[i];
        }
      }
      DecimalValueLeadingZero(Zeros(k - 1) + t);
    } else {
      assert Zeros(k) + t == t;
    }
  }

  /** An optional sign followed by a non-empty run of digits is read as the signed value, if in range. */
  lemma ParseInt64SignedDigits(sign: string, digits: string)
    requires sign == "" || sign == "+" || sign == "-"
    requires digits != [] && AllDigits(digits)
    ensures var v := if sign == "-" then -(DecimalValue(digits) as int) else DecimalValue(digits);
      ParseInt64(sign + digits) == if MinInt64 <= v <= MaxInt64 then Some(v) else None
  {
    var s := sign + digits;
    assert IsDigit(digits[0]);
    if sign == "" {
      assert s == digits && s[0] != '+' && s[0] != '-';
    } else {
      assert s[0] == sign[0] && s[1..] == digits;
    }
  }

  /**
   * Every spelling the parser accepts: an optional '+' or '-', any number of leading zeros,
   * then the digits of `n` ("+5", "007" and "-0" included) gives the signed value.
   */
  lemma ParseInt64Spellings(sign: string, zeros: nat, n: nat)
    requires sign == "" || sign == "+" || sign == "-"
    requires MinInt64 <= (if sign == "-" then -(n as int) else n) <= MaxInt64
    ensures ParseInt64(sign + Zeros(zeros) + NatToString(n)) == Some(if sign == "-" then -(n as int) else n)
  {
    var digits := Zeros(zeros) + NatToString(n);
    DecimalValueOfNatToString(n);
    DecimalValueZeros(zeros, NatToString(n));
    assert DecimalValue(digits) == n;
    assert digits != [] by { assert |digits| >= |NatToString(n)| > 0; }
    ParseInt64SignedDigits(sign, digits);
    assert sign + Zeros(zeros) + NatToString(n) == sign + digits;
  }

  /**
   * Text that is not an optional sign followed by digits only is refused: a lone sign,
   * a first character that is neither a digit nor a sign (" 5"), or a non-digit after
   * the first character ("12a", "1_000", "0x10").
   */
  lemma ParseInt64Refuses(s: string)
    requires || s == "+" || s == "-"
             || (s != [] && !IsDigit(s[0]) && s[0] != '+' && s[0] != '-')
             || (exists i :: 1 <= i < |s| && !IsDigit(s[i]))
    ensures ParseInt64(s) == None
  {
    if s != [] && (s[0] == '+' || s[0] == '-') && |s| > 1 {
      var i :| 1 <= i < |s| && !IsDigit(s[i]);
      assert !IsDigit(s[1..][i - 1]);
    }
  }

  /**
   * The number of payload chunks `garbage` sends for the `ckSize` value:
   * the default when the value is empty or does not parse, the parsed value
   * capped at 1024 otherwise. There is no lower bound.
   */
  function ChunkCount(ckSize: string): (chunks: int)
    ensures MinInt64 <= chunks <= MaxChunks
    ensures ParseInt64(ckSize).None? ==> chunks == DefaultChunks
    ensures ParseInt64(ckSize).Some? ==>
      chunks == if ParseInt64(ckSize).value > MaxChunks then MaxChunks else ParseInt64(ckSize).value
  {
    if ckSize == [] then DefaultChunks
    else
      match ParseInt64(ckSize)
      case None => DefaultChunks
      case Some(i) => if i > 1024 then 1024 else i
  }

  /** A 64-bit value sent as `ckSize` is used as is up to 1024 and capped at 1024 above. */
  lemma ChunkCountOfInt(v: int)
    requires MinInt64 <= v <= MaxInt64
    ensures ChunkCount(IntToString(v)) == if v > MaxChunks then MaxChunks else v
  {
    ParseInt64OfIntToString(v);
  }

  /** A numeral too large for 64 bits falls back to the default, not to the cap. */
  lemma ChunkCountOverflow(n: nat)
    requires n > MaxInt64
    ensures ChunkCount(NatToString(n)) == DefaultChunks
  {
    ParseInt64Overflow(n, false);
    assert "" + NatToString(n) == NatToString(n);
  }

  /** `n` copies of the payload, one after another. */
  function Repeat(payload: seq<Byte>, n: nat): (body: seq<Byte>)
    ensures |body| == n * |payload|
  {
    if n == 0 then [] else Repeat(payload, n - 1) + payload
  }

  /**
   * The number of chunks that reach the client when `c` writes are due: the writes succeed
   * one after another until the first failure or until all `c` are done.
   */
  function Delivered(c: nat, outcomes: seq<bool>): (w: nat)
    requires c <= |outcomes|
    ensures w <= c
    ensures forall i :: 0 <= i < w ==> outcomes[i]
    ensures w < c ==> !outcomes[w]
  {
    if c == 0 || !outcomes[0] then 0 else 1 + Delivered(c - 1, outcomes[1..])
  }

  /**
   * The write loop of `garbage`: up to `chunks` writes of the payload, stopping at the
   * first write that fails. `outcomes[i]` is whether the connection accepts the i-th write.
   * `attempts` counts the writes tried, `written` those that succeeded, `body` what was sent.
   */
  method WriteChunks(chunks: int, payload: seq<Byte>, outcomes: seq<bool>)
    returns (attempts: nat, written: nat, body: seq<Byte>)
    requires chunks <= |outcomes|
    ensures written <= attempts <= (if chunks < 0 then 0 else chunks)
    ensures forall i :: 0 <= i < written ==> outcomes[i]
    ensures (attempts == written && written == (if chunks < 0 then 0 else chunks))
         || (attempts == written + 1 && !outcomes[written])
    ensures written == Delivered(if chunks < 0 then 0 else chunks, outcomes)
    ensures body == Repeat(payload, written)
    ensures |body| == written * |payload|
  {
    attempts, written, body := 0, 0, [];
    var i := 0;
    while i < chunks
      invariant 0 <= i <= (if chunks < 0 then 0 else chunks)
      invariant attempts == written == i
      invariant forall k :: 0 <= k < written ==> outcomes[k]
      invariant body == Repeat(payload, written)
    {
      attempts := attempts + 1;
      if !outcomes[i] {
        break;
      }
      body := body + payload;
      written := written + 1;
      i := i + 1;
    }
  }

  /** The headers `garbage` sets before writing. */
  const GarbageHeaders: map<string, string> := map[
    "Content-Description" := "File Transfer",
    "Content-Type" := "application/octet-stream",
    "Content-Disposition" := "attachment; filename=random.dat",
    "Content-Transfer-Encoding" := "binary"]

  /**
   * The download handler: headers, then the payload repeated `ChunkCount(ckSize)` times,
   * cut short by the first failed write. `outcomes` gives one entry per write it may try.
   */
  method Garbage(ckSize: Option<string>, payload: seq<Byte>, outcomes: seq<bool>)
    returns (resp: Response)
    requires |payload| == ChunkSize
    requires |outcomes| >= MaxChunks
    ensures resp.status == StatusOK && resp.headers == GarbageHeaders
    ensures exists n: nat :: n <= MaxChunks && resp.body == Repeat(payload, n)
    ensures |resp.body| <= MaxChunks * ChunkSize && |resp.body| % ChunkSize == 0
    ensures var c := ChunkCount(FormValue(ckSize));
      resp.body == Repeat(payload, Delivered(if c < 0 then 0 else c, outcomes))
    ensures var c := ChunkCount(FormValue(ckSize));
      (forall i :: 0 <= i < c ==> outcomes[i]) ==> |resp.body| == (if c < 0 then 0 else c) * ChunkSize
  {
    var chunks := ChunkCount(FormValue(ckSize));
    var attempts, written, body := WriteChunks(chunks, payload, outcomes);
    resp := Response(StatusOK, GarbageHeaders, body);
  }

  /**
   * The upload handler: `drained` says whether the whole request body was read without
   * error. A read error gives 400 and no header; otherwise 200 with `Connection: keep-alive`.
   */
  function Empty(drained: bool): (resp: Response)
    ensures resp.body == []
    ensures resp.status == StatusOK || resp.status == StatusBadRequest
    ensures resp.status == StatusBadRequest <==> !drained
    ensures "Connection" in resp.headers <==> drained
    ensures drained ==> resp.headers == map["Connection" := "keep-alive"]
    ensures !drained ==> resp.headers == map[]
  {
    if !drained then Response(StatusBadRequest, map[], [])
    else Response(StatusOK, map["Connection" := "keep-alive"], [])
  }
}
