/** What an escalation to a paid endpoint can cost and is charged (`agent-escalation/src/price.rs`,
    `agent-escalation/src/endpoint.rs`). */
module Price {
  import opened Wrappers

  const TWO_128: nat := TWO_64 * TWO_64

  const PER_MTOK: nat := 1_000_000

  const PER_MESSAGE_OVERHEAD_TOKENS: nat := 16

  const MAX_PROMPT_BYTES: nat := 64 * 1024

  const MAX_ESCALATION_TOKENS: nat := 8192

  // ----- Arithmetic as the code does it --------------------------------------------------------------------

  /** A 128-bit value, or none where it overflows. */
  function Checked128(n: nat): (r: Option<nat>) {
    if n < TWO_128 then Some(n) else None
  }

  function DivCeil(n: nat, d: nat): (q: nat)
    requires d > 0
  {
    n / d + if n % d > 0 then 1 else 0
  }

  /** Micro-units per million tokens. */
  datatype Price = Price(input: u64, output: u64) {
    /** The most a request can cost. */
    function UpperBound(inputTokens: u64, maxOutputTokens: u64): (r: Option<nat>) {
      match (Checked128(inputTokens * input), Checked128(maxOutputTokens * output))
      case (Some(a), Some(b)) =>
        (match Checked128(a + b)
         case None => None
         case Some(total) =>
           var micros := DivCeil(total, PER_MTOK);
           if micros < TWO_64 then Some(micros) else None)
      case _ => None
    }

    /** What the tokens cost in millionths of a micro-unit. */
    function Exact(inputTokens: nat, outputTokens: nat): (n: nat) {
      inputTokens * input + outputTokens * output
    }
  }

  lemma ProductBelowSquare(a: nat, b: nat, t: nat)
    requires a < t && b < t
    ensures a * b < t * t
  {
    assert a * b <= a * t;
    assert a * t < t * t;
  }

  lemma ProductsFit(a: u64, b: u64)
    ensures a * b < TWO_128
  {
    ProductBelowSquare(a, b, TWO_64);
  }

  lemma DivCeilIsLeast(n: nat, d: nat)
    requires d > 0
    ensures n <= DivCeil(n, d) * d < n + d
  {
    var q, r := n / d, n % d;
    assert n == q * d + r;
  }

  /** The bound is the exact cost rounded up, and there is none exactly when that does not fit 64 bits; that
      the 128-bit sum may overflow makes no difference. */
  lemma UpperBoundIsExact(p: Price, inputTokens: u64, outputTokens: u64)
    ensures var r := p.UpperBound(inputTokens, outputTokens);
            var exact := p.Exact(inputTokens, outputTokens);
            && (r.None? <==> exact > (TWO_64 - 1) * PER_MTOK)
            && (r.Some? ==> exact <= r.value * PER_MTOK < exact + PER_MTOK && r.value < TWO_64)
  {
    ProductsFit(inputTokens, p.input);
    ProductsFit(outputTokens, p.output);
    DivCeilIsLeast(p.Exact(inputTokens, outputTokens), PER_MTOK);
  }

  lemma ExactIsMonotone(p: Price, i0: nat, o0: nat, i1: nat, o1: nat)
    requires i0 <= i1 && o0 <= o1
    ensures p.Exact(i0, o0) <= p.Exact(i1, o1)
  {
    assert i0 * p.input <= i1 * p.input && o0 * p.output <= o1 * p.output;
  }

  /** More tokens never cost less. */
  lemma UpperBoundIsMonotone(p: Price, i0: u64, o0: u64, i1: u64, o1: u64)
    requires i0 <= i1 && o0 <= o1 && p.UpperBound(i1, o1).Some?
    ensures p.UpperBound(i0, o0).Some? && p.UpperBound(i0, o0).value <= p.UpperBound(i1, o1).value
  {
    UpperBoundIsExact(p, i0, o0);
    UpperBoundIsExact(p, i1, o1);
    ExactIsMonotone(p, i0, o0, i1, o1);
  }

  /** The 128-bit sum can overflow. */
  lemma SumCanOverflow()
    ensures Checked128((TWO_64 - 1) * (TWO_64 - 1)).Some?
    ensures Checked128((TWO_64 - 1) * (TWO_64 - 1) + (TWO_64 - 1) * (TWO_64 - 1)).None?
  {
    assert (TWO_64 - 1) * (TWO_64 - 1) == TWO_128 - 2 * TWO_64 + 1;
  }

  // ----- Tokens ----------------------------------------------------------------------------------------------

  function SaturatingAdd(a: nat, b: nat): (n: nat) {
    if a + b < TWO_64 then a + b else TWO_64 - 1
  }

  /** The bound on the input tokens of messages of these lengths in bytes. */
  function InputTokenBound(lengths: seq<nat>): (n: nat) {
    if lengths == [] then 0 else
      SaturatingAdd(SaturatingAdd(InputTokenBound(lengths[..|lengths| - 1]), lengths[|lengths| - 1]),
                    PER_MESSAGE_OVERHEAD_TOKENS)
  }

  function Sum(lengths: seq<nat>): (n: nat) {
    if lengths == [] then 0 else Sum(lengths[..|lengths| - 1]) + lengths[|lengths| - 1]
  }

  /** One token a byte and the allowance for each message, as far as 64 bits go. */
  lemma {:induction false} InputTokenBoundIs(lengths: seq<nat>)
    ensures var exact := Sum(lengths) + PER_MESSAGE_OVERHEAD_TOKENS * |lengths|;
            InputTokenBound(lengths) == if exact < TWO_64 then exact else TWO_64 - 1
    decreases |lengths|
  {
    if lengths != [] {
      InputTokenBoundIs(lengths[..|lengths| - 1]);
    }
  }

  // ----- One escalation --------------------------------------------------------------------------------------

  /** What the arithmetic sees of a request: the lengths of its texts, its limits and its price. `shapeOk`
      stands for the checks of the id, the URL, the model's name and the prompt's blankness. */
  datatype Request = Request(
    shapeOk: bool, system: Option<nat>, prompt: nat, maxTokens: nat, price: Price, reservedMicros: u64)
  {
    /** The messages sent: an empty system prompt is left out. */
    function Lengths(): (ls: seq<nat>) {
      if system.Some? && system.value > 0 then [system.value, prompt] else [prompt]
    }

    function WorstCase(): (r: Option<nat>)
      requires maxTokens < TWO_64
    {
      InputTokenBoundIs(Lengths());
      price.UpperBound(InputTokenBound(Lengths()), maxTokens)
    }

    predicate Valid() {
      && shapeOk && prompt <= MAX_PROMPT_BYTES && (system.Some? ==> system.value <= MAX_PROMPT_BYTES)
      && 0 < maxTokens <= MAX_ESCALATION_TOKENS
      && WorstCase().Some? && WorstCase().value <= reservedMicros
    }
  }

  datatype Usage = Usage(promptTokens: u64, completionTokens: u64)

  datatype Charge = Charge(chargedMicros: nat, usageReported: bool, exceededQuote: bool)

  /** Charges the reported usage, never more than the reservation; without a report, the reservation. */
  function Settle(price: Price, reservedMicros: u64, usage: Option<Usage>): (c: Charge) {
    match usage
    case None => Charge(reservedMicros, false, false)
    case Some(u) =>
      match price.UpperBound(u.promptTokens, u.completionTokens)
      case Some(cost) =>
        if cost <= reservedMicros then Charge(cost, true, false) else Charge(reservedMicros, true, true)
      case None => Charge(reservedMicros, true, true)
  }

  /** What came back: nothing usable, or an answer with perhaps a usage. */
  datatype Reply = Unusable | Answer(usage: Option<Usage>)

  /** Validate, send, parse and settle; nothing is charged when any of it fails. */
  function Run(req: Request, reply: Reply): (c: Option<Charge>) {
    if !req.Valid() then None else
      match reply
      case Unusable => None
      case Answer(usage) => Some(Settle(req.price, req.reservedMicros, usage))
  }

  /** The tokens a request may cost at most: each byte of its texts, and 16 for each message that is sent; an empty
      system prompt is not. */
  lemma InputTokensOf(req: Request)
    requires req.prompt <= 65_536 && (req.system.Some? ==> req.system.value <= 65_536)
    ensures InputTokenBound(req.Lengths()) ==
              req.prompt + 16 + match req.system case None => 0 case Some(bytes) => if bytes == 0 then 0 else bytes + 16
  {
    InputTokenBoundIs(req.Lengths());
    var ls := req.Lengths();
    assert Sum(ls[..|ls| - 1]) == if |ls| == 2 then ls[0] else 0 by {
      if |ls| == 2 {
        assert ls[..1][..0] == [];
      }
    }
  }

  /** What a whole number of millionths covers. */
  lemma RoundedUpFits(exact: nat, q: nat, reserved: nat)
    requires exact <= q * PER_MTOK < exact + PER_MTOK
    ensures q <= reserved <==> exact <= reserved * PER_MTOK
  {
    if q <= reserved {
      assert q * PER_MTOK <= reserved * PER_MTOK;
    } else {
      assert (reserved + 1) * PER_MTOK <= q * PER_MTOK;
    }
  }

  /** An escalation is charged exactly when it is answered and was within the limits: texts of at most 64 KiB, one
      to 8192 tokens to answer with, and a reservation that pays for every byte sent, the allowances, and the
      longest answer, at the prices for a million tokens. */
  lemma ChargedExactly(req: Request, reply: Reply)
    ensures Run(req, reply).Some? <==>
              && reply.Answer? && req.shapeOk
              && req.prompt <= 65_536 && (req.system.Some? ==> req.system.value <= 65_536)
              && 1 <= req.maxTokens <= 8192
              && var tokens := req.prompt + 16
                               + match req.system case None => 0 case Some(bytes) => if bytes == 0 then 0 else bytes + 16;
                 tokens * req.price.input + req.maxTokens * req.price.output <= req.reservedMicros * 1_000_000
  {
    if req.prompt <= 65_536 && (req.system.Some? ==> req.system.value <= 65_536) && 1 <= req.maxTokens <= 8192 {
      InputTokensOf(req);
      var tokens := InputTokenBound(req.Lengths());
      UpperBoundIsExact(req.price, tokens, req.maxTokens);
      var bound, exact := req.price.UpperBound(tokens, req.maxTokens), req.price.Exact(tokens, req.maxTokens);
      if bound.Some? {
        RoundedUpFits(exact, bound.value, req.reservedMicros);
      } else {
        assert req.reservedMicros * PER_MTOK <= (TWO_64 - 1) * PER_MTOK;
      }
    }
  }

  /** No run is charged above its reservation. A report within the bounds of the request is charged exactly
      its cost, rounded up, and the quote is exceeded exactly when the reported usage costs more than was
      reserved. */
  lemma ChargesAreRight(req: Request, reply: Reply)
    requires Run(req, reply).Some?
    ensures var c := Run(req, reply).value;
            && c.chargedMicros <= req.reservedMicros
            && (c.usageReported <==> reply.usage.Some?)
            && (reply.usage.None? ==> c.chargedMicros == req.reservedMicros && !c.exceededQuote)
            && (reply.usage.Some? ==>
                  var exact := req.price.Exact(reply.usage.value.promptTokens, reply.usage.value.completionTokens);
                  && (c.exceededQuote <==> exact > req.reservedMicros * PER_MTOK)
                  && (!c.exceededQuote ==> exact <= c.chargedMicros * PER_MTOK < exact + PER_MTOK)
                  && (c.exceededQuote ==> c.chargedMicros == req.reservedMicros))
  {
    if reply.usage.Some? {
      UpperBoundIsExact(req.price, reply.usage.value.promptTokens, reply.usage.value.completionTokens);
    }
  }

  lemma UsageWithinBoundsIsCovered(req: Request, u: Usage)
    requires req.Valid()
    requires u.promptTokens <= InputTokenBound(req.Lengths()) && u.completionTokens <= req.maxTokens
    ensures var c := Settle(req.price, req.reservedMicros, Some(u));
            && !c.exceededQuote
            && Some(c.chargedMicros) == req.price.UpperBound(u.promptTokens, u.completionTokens)
            && c.chargedMicros <= req.WorstCase().value
  {
    InputTokenBoundIs(req.Lengths());
    UpperBoundIsMonotone(req.price, u.promptTokens, u.completionTokens, InputTokenBound(req.Lengths()), req.maxTokens);
  }
}
