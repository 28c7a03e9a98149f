/** Usage accounting per ring pseudonym. A record appends to the log and then, in a separate statement,
    adds to the running totals; requests interleave between the two, and one that fails after the first
    never makes the second. */
module UsageLedger {
  import opened Wrappers

  datatype Pseudonym = Pseudonym(tenant: string, ring: string, keyImage: string)

  datatype Totals = Totals(input: int, output: int, usd: real)

  const ZERO: Totals := Totals(0, 0, 0.0)

  function Add(a: Totals, b: Totals): Totals
  {
    Totals(a.input + b.input, a.output + b.output, a.usd + b.usd)
  }

  /** Dollars per thousand tokens of a model, which a deployment sets freely. */
  datatype Price = Price(inPer1k: real, outPer1k: real)

  type Prices = map<string, Price>

  function UsdFromPrices(prices: Prices, model: string, input: int, output: int): real
  {
    if model in prices then
      (input as real / 1000.0) * prices[model].inPer1k + (output as real / 1000.0) * prices[model].outPer1k
    else 0.0
  }

  datatype Usage = Usage(owner: Pseudonym, model: string, amount: Totals)

  /** What passes the guard of a record: token counts that are not negative, and the dollars the
      price map gives for them. */
  predicate Priced(prices: Prices, u: Usage)
  {
    && u.amount.input >= 0 && u.amount.output >= 0
    && u.amount.usd == UsdFromPrices(prices, u.model, u.amount.input, u.amount.output)
  }

  /** `pending` holds the log entries whose amount has not reached the ledger. */
  datatype Books = Books(log: seq<Usage>, ledger: map<Pseudonym, Totals>, pending: set<nat>)

  datatype Step = Append(entry: Usage) | Accumulate(index: nat)

  const EMPTY: Books := Books([], map[], {})

  /** The totals a caller reads. */
  function Read(b: Books, owner: Pseudonym): Totals
  {
    if owner in b.ledger then b.ledger[owner] else ZERO
  }

  predicate Enabled(prices: Prices, b: Books, step: Step)
  {
    match step
    case Append(entry) => Priced(prices, entry)
    case Accumulate(index) => index in b.pending && index < |b.log|
  }

  function Next(b: Books, step: Step): Books
    requires step.Accumulate? ==> step.index < |b.log|
  {
    match step
    case Append(entry) => b.(log := b.log + [entry], pending := b.pending + {|b.log|})
    case Accumulate(index) =>
      var entry := b.log[index];
      b.(ledger := b.ledger[entry.owner := Add(Read(b, entry.owner), entry.amount)], pending := b.pending - {index})
  }

  /** The amounts of an owner's entries among the first `n`, leaving some out. */
  function Sum(log: seq<Usage>, n: nat, owner: Pseudonym, left: set<nat>): Totals
    requires n <= |log|
  {
    if n == 0 then ZERO else
    var rest := Sum(log, n - 1, owner, left);
    if n - 1 !in left && log[n - 1].owner == owner then Add(rest, log[n - 1].amount) else rest
  }

  function Logged(b: Books, owner: Pseudonym): Totals
  {
    Sum(b.log, |b.log|, owner, {})
  }

  /** The ledger holds what was logged, less what is still pending. */
  ghost predicate Conserved(b: Books)
  {
    && (forall i :: i in b.pending ==> i < |b.log|)
    && forall owner :: Read(b, owner) == Sum(b.log, |b.log|, owner, b.pending)
  }

  lemma {:induction false} SumSame(log: seq<Usage>, other: seq<Usage>, n: nat, owner: Pseudonym, a: set<nat>, b: set<nat>)
    requires n <= |log| && n <= |other| && log[..n] == other[..n]
    requires forall i: nat :: i < n ==> (i in a <==> i in b)
    ensures Sum(log, n, owner, a) == Sum(other, n, owner, b)
    decreases n
  {
    if n > 0 {
      assert log[..n - 1] == log[..n][..n - 1] && other[..n - 1] == other[..n][..n - 1];
      assert log[n - 1] == log[..n][n - 1];
      SumSame(log, other, n - 1, owner, a, b);
    }
  }

  lemma {:induction false} SumWith(log: seq<Usage>, n: nat, owner: Pseudonym, left: set<nat>, i: nat)
    requires n <= |log| && i in left && i < n
    ensures Sum(log, n, owner, left - {i}) ==
            if log[i].owner == owner then Add(Sum(log, n, owner, left), log[i].amount) else Sum(log, n, owner, left)
    decreases n
  {
    if i < n - 1 {
      SumWith(log, n - 1, owner, left, i);
    } else {
      SumSame(log, log, n - 1, owner, left, left - {i});
    }
  }

  lemma AppendConserves(b: Books, entry: Usage)
    requires Conserved(b)
    ensures Conserved(Next(b, Append(entry)))
  {
    var c, n := Next(b, Append(entry)), |b.log|;
    forall owner
      ensures Read(c, owner) == Sum(c.log, |c.log|, owner, c.pending)
    {
      SumSame(c.log, b.log, n, owner, c.pending, b.pending);
    }
  }

  lemma AccumulateConserves(b: Books, index: nat)
    requires Conserved(b) && index in b.pending
    ensures Conserved(Next(b, Accumulate(index)))
  {
    var c := Next(b, Accumulate(index));
    forall owner
      ensures Read(c, owner) == Sum(c.log, |c.log|, owner, c.pending)
    {
      SumWith(b.log, |b.log|, owner, b.pending, index);
    }
  }

  lemma StepConserves(prices: Prices, b: Books, step: Step)
    requires Conserved(b) && Enabled(prices, b, step)
    ensures Conserved(Next(b, step))
  {
    match step {
      case Append(entry) => AppendConserves(b, entry);
      case Accumulate(index) => AccumulateConserves(b, index);
    }
  }

  ghost predicate IsRun(prices: Prices, states: seq<Books>, steps: seq<Step>)
  {
    && |states| == |steps| + 1 && states[0] == EMPTY
    && forall i :: 0 <= i < |steps| ==> Enabled(prices, states[i], steps[i]) && states[i + 1] == Next(states[i], steps[i])
  }

  /** Every entry of the log passed the guard. */
  predicate LogPriced(prices: Prices, log: seq<Usage>)
  {
    forall i :: 0 <= i < |log| ==> Priced(prices, log[i])
  }

  lemma {:induction false} RunConserves(prices: Prices, states: seq<Books>, steps: seq<Step>, n: nat)
    requires IsRun(prices, states, steps) && n <= |steps|
    ensures Conserved(states[n]) && LogPriced(prices, states[n].log)
    decreases n
  {
    if n > 0 {
      RunConserves(prices, states, steps, n - 1);
      StepConserves(prices, states[n - 1], steps[n - 1]);
    }
  }

  /** Leaving entries out of a sum does not raise its tokens, nor its dollars where no entry's are negative. */
  lemma {:induction false} SumAtLeast(prices: Prices, log: seq<Usage>, n: nat, owner: Pseudonym, left: set<nat>)
    requires n <= |log| && LogPriced(prices, log)
    ensures Sum(log, n, owner, {}).input >= Sum(log, n, owner, left).input
    ensures Sum(log, n, owner, {}).output >= Sum(log, n, owner, left).output
    ensures (forall i :: 0 <= i < n ==> log[i].amount.usd >= 0.0) ==> Sum(log, n, owner, {}).usd >= Sum(log, n, owner, left).usd
    decreases n
  {
    if n > 0 {
      SumAtLeast(prices, log, n - 1, owner, left);
      assert Priced(prices, log[n - 1]);
    }
  }

  predicate NonNegative(prices: Prices)
  {
    forall m :: m in prices ==> prices[m].inPer1k >= 0.0 && prices[m].outPer1k >= 0.0
  }

  lemma ProductNonNegative(x: real, y: real)
    requires x >= 0.0 && y >= 0.0
    ensures x * y >= 0.0
  {
  }

  lemma PricedNonNegative(prices: Prices, u: Usage)
    requires NonNegative(prices) && Priced(prices, u)
    ensures u.amount.usd >= 0.0
  {
    if u.model in prices {
      ProductNonNegative(u.amount.input as real / 1000.0, prices[u.model].inPer1k);
      ProductNonNegative(u.amount.output as real / 1000.0, prices[u.model].outPer1k);
    }
  }

  /** At every point of every run the ledger's tokens never exceed the log's, whatever the prices, and where no
      record is between its two statements ledger and log agree in everything. */
  lemma LedgerWithinLog(prices: Prices, states: seq<Books>, steps: seq<Step>, n: nat, owner: Pseudonym)
    requires IsRun(prices, states, steps) && n <= |steps|
    ensures Logged(states[n], owner).input >= Read(states[n], owner).input
    ensures Logged(states[n], owner).output >= Read(states[n], owner).output
    ensures states[n].pending == {} ==> Logged(states[n], owner) == Read(states[n], owner)
    ensures NonNegative(prices) ==> Logged(states[n], owner).usd >= Read(states[n], owner).usd
  {
    RunConserves(prices, states, steps, n);
    SumAtLeast(prices, states[n].log, |states[n].log|, owner, states[n].pending);
    if NonNegative(prices) {
      forall i | 0 <= i < |states[n].log|
        ensures states[n].log[i].amount.usd >= 0.0
      {
        PricedNonNegative(prices, states[n].log[i]);
      }
    }
  }

  /** In no run does the ledger hold more dollars than the log. */
  ghost predicate DollarsWithinLog(prices: Prices)
  {
    forall states, steps, n: nat, owner :: IsRun(prices, states, steps) && n <= |steps| ==>
      Logged(states[n], owner).usd >= Read(states[n], owner).usd
  }

  /** A thousand tokens at a negative price, logged and not yet in the ledger. */
  lemma NegativePriceOvertakes(prices: Prices, model: string)
    requires model in prices && (prices[model].inPer1k < 0.0 || prices[model].outPer1k < 0.0)
    ensures !DollarsWithinLog(prices)
  {
    var input := if prices[model].inPer1k < 0.0 then 1000 else 0;
    var output := 1000 - input;
    var usd := UsdFromPrices(prices, model, input, output);
    var owner := Pseudonym("", "", "");
    var u := Usage(owner, model, Totals(input, output, usd));
    var states, steps := [EMPTY, Next(EMPTY, Append(u))], [Append(u)];
    assert usd < 0.0;
    assert IsRun(prices, states, steps);
    assert Sum([u], 1, owner, {}) == Add(Sum([u], 0, owner, {}), u.amount);
    assert states[1].log == [u];
    assert Logged(states[1], owner).usd == usd;
    assert Read(states[1], owner).usd == 0.0;
  }

  /** The ledger never holds more dollars than the log, in every run, exactly if no price is negative. */
  lemma DollarsWithinLogIff(prices: Prices)
    ensures DollarsWithinLog(prices) <==> NonNegative(prices)
  {
    if NonNegative(prices) {
      forall states, steps, n: nat, owner | IsRun(prices, states, steps) && n <= |steps|
        ensures Logged(states[n], owner).usd >= Read(states[n], owner).usd
      {
        LedgerWithinLog(prices, states, steps, n, owner);
      }
    } else {
      var model :| model in prices && (prices[model].inPer1k < 0.0 || prices[model].outPer1k < 0.0);
      NegativePriceOvertakes(prices, model);
    }
  }

  datatype Receipt = Receipt(tenant: string, ring: Option<string>, keyImage: string)

  datatype UsageError = BadRequest | NotFound | Internal

  /** How far a record gets before the database fails it: to the lookup of the receipt, which then counts as
      missing, to either write, or to the read of the new totals, whose failure goes unnoticed. */
  datatype Fault = NoFault | LookupFails | LogFails | LedgerFails | TotalsFail

  /** One pseudonym's totals moved by the amount and nobody else's moved. */
  ghost predicate Charged(before: Books, after: Books, owner: Pseudonym, amount: Totals)
  {
    forall o :: Read(after, o) == if o == owner then Add(Read(before, o), amount) else Read(before, o)
  }

  class UsageTables {
    var receipts: map<string, Receipt>
    var books: Books

    constructor (receipts: map<string, Receipt>)
      ensures this.receipts == receipts && books == EMPTY
    {
      this.receipts := receipts;
      books := EMPTY;
    }

    function OwnerOf(receiptId: string): Option<Pseudonym>
      reads this
    {
      if receiptId !in receipts then None else
      var row := receipts[receiptId];
      if row.ring.None? || row.ring.value == "" then None else Some(Pseudonym(row.tenant, row.ring.value, row.keyImage))
    }

    /** Charges the pseudonym that owns the receipt. A success moves its totals by exactly this usage, and
        nobody else's, and returns them; when the totals cannot be read it returns zeros instead. A failure of the
        second statement leaves the entry pending. */
    method RecordUsage(prices: Prices, receiptId: string, model: string, input: int, output: int, fault: Fault)
      returns (r: Result<(Pseudonym, Totals), UsageError>)
      modifies this`books
      ensures r.Ok? <==> input >= 0 && output >= 0 && OwnerOf(receiptId).Some? && (fault.NoFault? || fault.TotalsFail?)
      ensures r.Ok? ==> r.value.0 == OwnerOf(receiptId).value
      ensures r.Ok? ==> r.value.1 == if fault.TotalsFail? then ZERO else Read(books, r.value.0)
      ensures r.Ok? ==> Charged(old(books), books, r.value.0, Totals(input, output, UsdFromPrices(prices, model, input, output)))
      ensures r.Ok? ==> books.pending == old(books).pending - {|old(books).log|}
      ensures r.Err? ==> books.ledger == old(books).ledger
      ensures r.Err? && !(r.error.Internal? && fault.LedgerFails?) ==> books == old(books)
      ensures r == Err(NotFound) <==> input >= 0 && output >= 0 && (fault.LookupFails? || receiptId !in receipts)
      ensures old(Conserved(books)) ==> Conserved(books)
      ensures old(LogPriced(prices, books.log)) ==> LogPriced(prices, books.log)
    {
      if input < 0 || output < 0 {
        return Err(BadRequest);
      }
      if fault.LookupFails? || receiptId !in receipts {
        return Err(NotFound);
      }
      var owner := OwnerOf(receiptId);
      if owner.None? {
        return Err(BadRequest);
      }
      if fault.LogFails? {
        return Err(Internal);
      }
      var usd := UsdFromPrices(prices, model, input, output);
      var entry := Usage(owner.value, model, Totals(input, output, usd));
      var index := |books.log|;
      if Conserved(books) {
        AppendConserves(books, entry);
      }
      books := Next(books, Append(entry));
      if fault.LedgerFails? {
        return Err(Internal);
      }
      if Conserved(books) {
        AccumulateConserves(books, index);
      }
      books := Next(books, Accumulate(index));
      return Ok((owner.value, if fault.TotalsFail? then ZERO else Read(books, owner.value)));
    }
  }
}
