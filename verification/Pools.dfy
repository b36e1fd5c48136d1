/** The routable form of one liquidity source, and the quote of an ordered token pair. */
module Pools {
  import opened U256
  import opened Ordering
  import ConstantProduct
  import Concentrated
  import StableMath

  /** Token addresses are canonical: lower case, compared as strings. */
  type Token = string

  datatype Curve =
    | Product(reserveA: int, reserveB: int)
    | Ranged(range: Concentrated.Range)
    | Stable(tokens: seq<Token>, basket: StableMath.Basket)
    | Unsupported(kind: string)

  datatype Pool = Pool(
    id: string, gasEstimate: nat, tokenA: Token, tokenB: Token, feeNum: int, feeDen: int, curve: Curve)
  {
    function Kind(): string {
      match curve
      case Product(_, _) => "constantProduct"
      case Ranged(_) => "concentratedLiquidity"
      case Stable(_, _) => "stable"
      case Unsupported(kind) => kind
    }

    function AllTokens(): seq<Token> {
      if curve.Stable? && curve.tokens != [] then curve.tokens
      else
        (if tokenA != "" then [tokenA] else []) + (if tokenB != "" && tokenA != tokenB then [tokenB] else [])
    }

    predicate Supports(tokenIn: Token, tokenOut: Token) {
      tokenIn != tokenOut && tokenIn in AllTokens() && tokenOut in AllTokens()
    }

    /** Token 0 is the smaller address. */
    function Token0(): Token {
      if Before(tokenB, tokenA) then tokenB else tokenA
    }

    function QuoteExactInPair(tokenIn: Token, tokenOut: Token, amountIn: int): Result<int> {
      if !IsU256(amountIn) || amountIn <= 0 then Err(InvalidInput)
      else if !Supports(tokenIn, tokenOut) then Err(PairNotInPool)
      else
        match curve
        case Product(reserveA, reserveB) =>
          if tokenIn == tokenB then ConstantProduct.Quote(reserveB, reserveA, feeNum, feeDen, amountIn)
          else ConstantProduct.Quote(reserveA, reserveB, feeNum, feeDen, amountIn)
        case Ranged(range) =>
          Concentrated.Quote(range, feeNum, feeDen, tokenIn == Token0(), amountIn)
        case Stable(tokens, basket) =>
          StableMath.Quote(basket, |tokens|, feeNum, feeDen,
                           LastIndex(tokens, tokenIn), LastIndex(tokens, tokenOut), amountIn)
        case Unsupported(_) => Err(UnsupportedKind)
    }

    method ComputeQuoteExactInPair(tokenIn: Token, tokenOut: Token, amountIn: int) returns (r: Result<int>)
      ensures r == QuoteExactInPair(tokenIn, tokenOut, amountIn)
    {
      if !IsU256(amountIn) || amountIn <= 0 {
        return Err(InvalidInput);
      }
      if !Supports(tokenIn, tokenOut) {
        return Err(PairNotInPool);
      }
      match curve {
        case Product(reserveA, reserveB) =>
          r := if tokenIn == tokenB then ConstantProduct.Quote(reserveB, reserveA, feeNum, feeDen, amountIn)
               else ConstantProduct.Quote(reserveA, reserveB, feeNum, feeDen, amountIn);
        case Ranged(range) =>
          r := Concentrated.ComputeQuote(range, feeNum, feeDen, tokenIn == Token0(), amountIn);
        case Stable(tokens, basket) =>
          var inIndex, outIndex: int := -1, -1;
          var i := 0;
          while i < |tokens|
            invariant 0 <= i <= |tokens|
            invariant inIndex == LastIndex(tokens[..i], tokenIn) && outIndex == LastIndex(tokens[..i], tokenOut)
          {
            assert tokens[..i + 1] == tokens[..i] + [tokens[i]];
            if tokens[i] == tokenIn {
              inIndex := i;
            } else if tokens[i] == tokenOut {
              outIndex := i;
            }
            i := i + 1;
          }
          assert tokens[..i] == tokens;
          r := StableMath.ComputeQuote(basket, |tokens|, feeNum, feeDen, inIndex, outIndex, amountIn);
        case Unsupported(_) =>
          r := Err(UnsupportedKind);
      }
    }
  }

  function LastIndex(tokens: seq<Token>, token: Token): int {
    if tokens == [] then -1
    else if tokens[|tokens| - 1] == token then |tokens| - 1
    else LastIndex(tokens[..|tokens| - 1], token)
  }
}
