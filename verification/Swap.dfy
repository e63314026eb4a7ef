/** src/swap/handle_swap_sign_transaction.c: what was validated before the swap, and
    the checks of displayed texts and raw amounts against it. */
module Swap {
  import opened Bytes
  import opened Decimal
  import opened Amounts
  import opened Printer
  import opened AmountCompare

  const MAX_SWAP_TOKEN_LENGTH := 15

  /** The C string stored in a buffer. */
  function CStr(s: seq<char>): string {
    if |s| == 0 || s[0] == '\0' then "" else [s[0]] + CStr(s[1..])
  }

  lemma {:induction false} CStrOf(s: seq<char>, q: string)
    requires IsCString(q) && |q| < |s| && s[..|q| + 1] == q + ['\0']
    ensures CStr(s) == q
  {
    if |q| == 0 {
      assert s[0] == s[..1][0];
    } else {
      assert s[0] == s[..|q| + 1][0] == q[0];
      assert s[1..][..|q|] == s[..|q| + 1][1..] == q[1..] + ['\0'];
      CStrOf(s[1..], q[1..]);
    }
  }

  lemma QualifiedIsCString(n: nat, decimals: nat, ticker: string)
    requires IsCString(ticker)
    ensures IsCString(Qualified(n, decimals, Some(ticker)))
  {
    AmountTextDenotes(n, decimals);
    DecimalChars(AmountText(n, decimals));
  }

  class SwapContext {
    var initialized: bool
    var decimals: byte
    var ticker: string
    var amount: u64
    var fee: u64
    /** Size of the local text buffers, MAX_PRINTABLE_AMOUNT_SIZE of the SDK. */
    const printableSize: nat

    ghost predicate Valid()
      reads this
    {
      IsCString(ticker) && |ticker| < MAX_SWAP_TOKEN_LENGTH && printableSize > 1
    }

    constructor (decimals: byte, ticker: string, amount: u64, fee: u64, printableSize: nat)
      requires IsCString(ticker) && |ticker| < MAX_SWAP_TOKEN_LENGTH && printableSize > 1
      ensures Valid() && initialized && this.printableSize == printableSize
      ensures this.decimals == decimals && this.ticker == ticker && this.amount == amount && this.fee == fee
    {
      initialized := true;
      this.decimals, this.ticker, this.amount, this.fee := decimals, ticker, amount, fee;
      this.printableSize := printableSize;
    }

    /** check_swap_amount: the displayed text must be the validated amount as printed. */
    method CheckSwapAmount(text: string) returns (r: bool)
      requires Valid() && IsCString(text)
      ensures r <==> initialized && Fits(amount, decimals, Some(ticker), printableSize)
                     && text == Qualified(amount, decimals, Some(ticker))
    {
      if !initialized {
        return false;
      }
      var validatedAmount := new char[printableSize];
      var rc, underread := PrintTokenAmount(amount, Some(ticker), decimals, validatedAmount, printableSize);
      if rc != 0 {
        return false;
      }
      QualifiedIsCString(amount, decimals, ticker);
      CStrOf(validatedAmount[..], Qualified(amount, decimals, Some(ticker)));
      r := text == CStr(validatedAmount[..]);
    }

    /** check_swap_amount_raw */
    method CheckSwapAmountRaw(value: u64) returns (r: bool)
      ensures r <==> initialized && value == amount
    {
      if !initialized {
        return false;
      }
      if value != amount {
        return false;
      }
      return true;
    }

    /** get_swap_amount_raw */
    method GetSwapAmountRaw() returns (rc: int, value: u64)
      ensures rc == 0 <==> initialized
      ensures rc == 0 ==> value == amount
    {
      if !initialized {
        return -1, 0;
      }
      return 0, amount;
    }

    /** check_swap_fee: the displayed fee must not exceed the validated one. */
    method CheckSwapFee(text: string) returns (r: bool)
      requires Valid() && IsCString(text) && |text| <= INT_MAX
      ensures r <==> initialized && Fits(fee, SOL_DECIMALS, Some("SOL"), printableSize)
                     && AmountGe(Some(Qualified(fee, SOL_DECIMALS, Some("SOL"))), Some(text))
    {
      if !initialized {
        return false;
      }
      var validatedFee := new char[printableSize];
      var rc, underread := PrintAmount(fee, validatedFee, printableSize);
      if rc != 0 {
        return false;
      }
      QualifiedIsCString(fee, SOL_DECIMALS, "SOL");
      CStrOf(validatedFee[..], Qualified(fee, SOL_DECIMALS, Some("SOL")));
      r := AmountAsStringIsGreaterOrEqual(Some(CStr(validatedFee[..])), Some(text));
    }
  }

  // ---------- what the checks decide ----------

  /** A u64 has at most 20 digits, so every SOL amount fits in 27 characters. */
  lemma SolAmountFits(amount: u64, size: nat)
    requires 27 <= size <= INT_MAX
    ensures Fits(amount, SOL_DECIMALS, Some("SOL"), size)
  {
    TwentyDigits();
    NumDigitsIs(amount, 20);
    AmountTextDenotes(amount, SOL_DECIMALS);
  }

  lemma TwentyDigits()
    ensures Pow10(20) == 100_000_000_000_000_000_000
  {
    assert Pow10(5) == 100_000;
    Pow10Add(5, 5);
    Pow10Add(10, 10);
  }

  /** The fee check on a printed SOL fee is exactly shown <= validated. */
  lemma FeeCheckIsExact(validated: u64, shown: u64)
    ensures AmountGe(Some(Qualified(validated, SOL_DECIMALS, Some("SOL"))),
                     Some(Qualified(shown, SOL_DECIMALS, Some("SOL"))))
       <==> shown <= validated
  {
    PrintedGe(validated, SOL_DECIMALS, shown, SOL_DECIMALS, "SOL");
    Cancel(validated, shown, Pow10(SOL_DECIMALS));
  }

  /** The amount check on a printed amount holds exactly when the tickers match and
      the two rationals are equal. */
  lemma AmountCheckIsExact(validated: u64, vd: byte, vt: string, shown: u64, sd: byte, st: string)
    ensures Qualified(shown, sd, Some(st)) == Qualified(validated, vd, Some(vt))
       <==> st == vt && shown * Pow10(vd) == validated * Pow10(sd)
  {
    PrintedSame(shown, sd, st, validated, vd, vt);
  }
}
