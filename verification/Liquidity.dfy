/**
 The quote of an optimal pair of amounts for adding liquidity to an exchange pair.  The
 exchange contracts are functions of the model: any of their calls may fail.
 */
module Liquidity {
  import opened Wrappers

  /** What a reserve of `s` is worth for an amount `a` of a token with a reserve of `r`. */
  function Floor(a: nat, r: nat, s: nat): nat
    requires r > 0
  {
    a * s / r
  }

  /** The router's quote: amount, own reserve and sibling's reserve. */
  type Router = (nat, nat, nat) -> Result<nat>

  /** A quote that is answered at all is the product divided, rounded down. */
  ghost predicate Honest(quote: Router) {
    forall a, r, s :: quote(a, r, s).Ok? ==> r > 0 && quote(a, r, s).value == Floor(a, r, s)
  }

  datatype Exchange<!Token, !Pair> = Exchange(
    pair: (Token, Token) -> Result<Pair>,
    tokens: Pair -> Result<(Token, Token)>,
    reserves: Pair -> Result<(nat, nat)>,
    quote: Router)

  /** `uniswapOptimalLiquidity` on reserves `r` and `s`. */
  function OptimalLiquidity(reserves: Result<(nat, nat)>, quote: Router, a: nat, b: nat): Result<(nat, nat)> {
    match reserves
    case Err => Err
    case Ok((r, s)) =>
      if r == 0 && s == 0 then Ok((a, b))
      else
        match quote(a, r, s)
        case Err => Err
        case Ok(optimalB) =>
          if optimalB <= b then Ok((a, optimalB))
          else
            match quote(b, s, r)
            case Err => Err
            case Ok(optimalA) => if optimalA > a then Err else Ok((optimalA, b))
  }

  /** `DefiUniswapQuoteLiquidity`: the amounts are answered in the order of the tokens given. */
  function QuoteLiquidity<Token(==), Pair>(x: Exchange<Token, Pair>, tokens: seq<Token>, amounts: seq<nat>):
    Result<seq<nat>>
  {
    if |tokens| != 2 || |amounts| != 2 then Err
    else
      match x.pair(tokens[0], tokens[1])
      case Err => Err
      case Ok(pair) =>
        match x.tokens(pair)
        case Err => Err
        case Ok((first, _)) =>
          if first == tokens[0] then
            match OptimalLiquidity(x.reserves(pair), x.quote, amounts[0], amounts[1])
            case Err => Err
            case Ok((p, q)) => Ok([p, q])
          else if first == tokens[1] then
            match OptimalLiquidity(x.reserves(pair), x.quote, amounts[1], amounts[0])
            case Err => Err
            case Ok((p, q)) => Ok([q, p])
          else Err
  }

  // ------------------------------------------------------------ arithmetic

  /** The quote is the largest amount whose worth does not exceed that of `a`. */
  lemma FloorBounds(a: nat, r: nat, s: nat)
    requires r > 0
    ensures Floor(a, r, s) * r <= a * s < (Floor(a, r, s) + 1) * r
  {
    var product := a * s;
    assert product == r * (product / r) + product % r;
  }

  lemma FloorIsLargest(a: nat, r: nat, s: nat, q: nat)
    requires r > 0
    ensures q <= Floor(a, r, s) <==> q * r <= a * s
  {
    FloorBounds(a, r, s);
    var f := Floor(a, r, s);
    if q <= f {
      Monotone(q, f, r);
    } else {
      Monotone(f + 1, q, r);
    }
  }

  lemma Monotone(x: nat, y: nat, k: nat)
    requires x <= y
    ensures x * k <= y * k
  {
    assert y * k == x * k + (y - x) * k;
  }

  // -------------------------------------------------------------- theorems

  /** The pair is worth the same on both sides, up to one unit of the rounded side. */
  ghost predicate MatchesRatio(p: nat, q: nat, r: nat, s: nat) {
    || q * r <= p * s < (q + 1) * r
    || p * s <= q * r < (p + 1) * s
  }

  /** No pair of exactly the ratio of the reserves fits into the inputs and exceeds this one. */
  ghost predicate Dominates(p: nat, q: nat, r: nat, s: nat, a: nat, b: nat) {
    forall x: nat, y: nat {:trigger x * s, y * r} :: x <= a && y <= b && x * s == y * r ==> x <= p && y <= q
  }

  /** On a pair with reserves an answer stays within the inputs, uses one of them in full,
      matches the ratio of the reserves, and nothing better of that ratio exists. */
  lemma QuoteIsOptimal(quote: Router, r: nat, s: nat, a: nat, b: nat)
    requires Honest(quote) && r > 0 && s > 0
    requires OptimalLiquidity(Ok((r, s)), quote, a, b).Ok?
    ensures var (p, q) := OptimalLiquidity(Ok((r, s)), quote, a, b).value;
            && p <= a && q <= b && (p == a || q == b)
            && MatchesRatio(p, q, r, s)
            && Dominates(p, q, r, s, a, b)
  {
    var (p, q) := OptimalLiquidity(Ok((r, s)), quote, a, b).value;
    if Floor(a, r, s) <= b {
      assert (p, q) == (a, Floor(a, r, s));
      FloorBounds(a, r, s);
      forall x: nat, y: nat {:trigger x * s, y * r} | x <= a && y <= b && x * s == y * r
        ensures x <= p && y <= q
      {
        Monotone(x, a, s);
        FloorIsLargest(a, r, s, y);
      }
    } else {
      assert (p, q) == (Floor(b, s, r), b);
      FloorBounds(b, s, r);
      forall x: nat, y: nat {:trigger x * s, y * r} | x <= a && y <= b && x * s == y * r
        ensures x <= p && y <= q
      {
        Monotone(y, b, r);
        FloorIsLargest(b, s, r, x);
      }
    }
  }

  /** The branch in which neither optimal value matches the inputs is never taken. */
  lemma OneSideMatches(r: nat, s: nat, a: nat, b: nat)
    requires r > 0 && s > 0
    ensures Floor(a, r, s) <= b || Floor(b, s, r) <= a
  {
    if Floor(a, r, s) > b {
      FloorIsLargest(a, r, s, b + 1);
      assert (b + 1) * r == b * r + r && (a + 1) * s == a * s + s;
      FloorIsLargest(b, s, r, a + 1);
    }
  }

  /** An answer fails only because a call does: the reserves' or one of the quotes'. */
  lemma FailsOnlyWithTheRouter(reserves: Result<(nat, nat)>, quote: Router, a: nat, b: nat)
    requires Honest(quote) && reserves.Ok? && reserves.value.0 > 0 && reserves.value.1 > 0
    ensures var (r, s) := reserves.value;
            OptimalLiquidity(reserves, quote, a, b).Err? <==>
              quote(a, r, s).Err? || (Floor(a, r, s) > b && quote(b, s, r).Err?)
  {
    var (r, s) := reserves.value;
    OneSideMatches(r, s, a, b);
  }

  function Swapped(r: Result<seq<nat>>): Result<seq<nat>> {
    if r.Ok? && |r.value| == 2 then Ok([r.value[1], r.value[0]]) else r
  }

  /** The order in which the caller names the two tokens does not matter. */
  lemma SwapOrder<Token, Pair>(x: Exchange<Token, Pair>, t: Token, u: Token, a: nat, b: nat)
    requires t != u && x.pair(t, u) == x.pair(u, t)
    ensures QuoteLiquidity(x, [u, t], [b, a]) == Swapped(QuoteLiquidity(x, [t, u], [a, b]))
  {
  }

  /** The amounts in the order of the pair's own tokens, of which `first` is the first. */
  function Ordered<Token(==)>(first: Token, tokens: seq<Token>, amounts: seq<nat>): (nat, nat)
    requires |tokens| == |amounts| == 2
  {
    if first == tokens[0] then (amounts[0], amounts[1]) else (amounts[1], amounts[0])
  }

  /** A request fails exactly if it does not name two tokens and two amounts, if the exchange does not
      tell the pair, its tokens or its reserves, if the pair is of other tokens, or, on a pair that is
      not empty, if a quote it needs fails: that of the first amount, or, if that is worth more than
      the second one, that of the second. */
  lemma RequestFailsExactlyWhen<Token, Pair>(x: Exchange<Token, Pair>, tokens: seq<Token>, amounts: seq<nat>)
    requires Honest(x.quote)
    ensures QuoteLiquidity(x, tokens, amounts).Err? <==>
              || |tokens| != 2 || |amounts| != 2
              || (var pair := x.pair(tokens[0], tokens[1]);
                  || pair.Err? || x.tokens(pair.value).Err? || x.tokens(pair.value).value.0 !in tokens
                  || x.reserves(pair.value).Err?
                  || (var (r, s) := x.reserves(pair.value).value;
                      var (a, b) := Ordered(x.tokens(pair.value).value.0, tokens, amounts);
                      && (r > 0 || s > 0)
                      && (x.quote(a, r, s).Err? || (Floor(a, r, s) > b && x.quote(b, s, r).Err?))))
  {
    if |tokens| == 2 && |amounts| == 2 && x.pair(tokens[0], tokens[1]).Ok? {
      var pair := x.pair(tokens[0], tokens[1]).value;
      if x.reserves(pair).Ok? && x.reserves(pair).value.0 > 0 && x.reserves(pair).value.1 > 0 {
        FailsOnlyWithTheRouter(x.reserves(pair), x.quote, amounts[0], amounts[1]);
        FailsOnlyWithTheRouter(x.reserves(pair), x.quote, amounts[1], amounts[0]);
      }
    }
  }

  /** A full answer, in the caller's terms: `r` and `s` are the reserves of the caller's
      first and second token. */
  lemma AnswerIsOptimal<Token, Pair>(x: Exchange<Token, Pair>, tokens: seq<Token>, amounts: seq<nat>)
    requires Honest(x.quote) && QuoteLiquidity(x, tokens, amounts).Ok?
    ensures |tokens| == |amounts| == |QuoteLiquidity(x, tokens, amounts).value| == 2
    ensures var pair := x.pair(tokens[0], tokens[1]).value;
            var (first, second) := x.reserves(pair).value;
            var (r, s) := if x.tokens(pair).value.0 == tokens[0] then (first, second) else (second, first);
            var (p, q) := (QuoteLiquidity(x, tokens, amounts).value[0], QuoteLiquidity(x, tokens, amounts).value[1]);
            && p <= amounts[0] && q <= amounts[1] && (p == amounts[0] || q == amounts[1])
            && (r > 0 && s > 0 ==> MatchesRatio(p, q, r, s) && Dominates(p, q, r, s, amounts[0], amounts[1]))
  {
    var pair := x.pair(tokens[0], tokens[1]).value;
    var (first, second) := x.reserves(pair).value;
    var inOrder := x.tokens(pair).value.0 == tokens[0];
    var a, b := if inOrder then amounts[0] else amounts[1], if inOrder then amounts[1] else amounts[0];
    if first > 0 && second > 0 {
      QuoteIsOptimal(x.quote, first, second, a, b);
    } else {
      assert OptimalLiquidity(x.reserves(pair), x.quote, a, b).Ok?;
    }
  }

  lemma ZeroWorth(a: nat, r: nat)
    requires r > 0
    ensures Floor(a, r, 0) == 0
  {
  }

  /** On an empty pair both amounts are confirmed; where only one token has a reserve, its amount is
      confirmed, and none of the other. */
  lemma AnswerWithoutReserves<Token, Pair>(x: Exchange<Token, Pair>, tokens: seq<Token>, amounts: seq<nat>)
    requires Honest(x.quote) && QuoteLiquidity(x, tokens, amounts).Ok?
    requires var (first, second) := x.reserves(x.pair(tokens[0], tokens[1]).value).value; first == 0 || second == 0
    ensures var pair := x.pair(tokens[0], tokens[1]).value;
            var (first, second) := x.reserves(pair).value;
            var (r, s) := if x.tokens(pair).value.0 == tokens[0] then (first, second) else (second, first);
            QuoteLiquidity(x, tokens, amounts).value ==
            if r == s == 0 then amounts else if s == 0 then [amounts[0], 0] else [0, amounts[1]]
  {
    var (first, second) := x.reserves(x.pair(tokens[0], tokens[1]).value).value;
    if first > 0 {
      ZeroWorth(amounts[0], first);
      ZeroWorth(amounts[1], first);
    }
  }
}
