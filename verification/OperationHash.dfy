/** The description a one-time code is bound to. The service stores a SHA-256 of it; with that hash injective,
    two operations share a code only if their descriptions are equal, so only if they are the same operation. */
module OperationHash {
  import opened Text
  import MoneyText
  import Credits

  /** buildCreditPrepaymentOperationHash refuses any other mode. */
  type KnownMode = m: Credits.Mode | !m.UnknownMode? witness Credits.FullCloseMode

  datatype Operation =
    | Transfer(from: nat, to: nat, cents: nat)
    | CardPayment(card: nat, cents: nat)
    | CardTransfer(fromCard: nat, toCard: nat, fromAccount: nat, toAccount: nat, cents: nat)
    | CardReveal(card: nat)
    | CreditCreate(account: nat, cents: nat, term: nat)
    | CreditPrepayment(credit: nat, cents: nat, mode: KnownMode)
    | Withdraw(account: nat, cents: nat)

  function ModeText(mode: KnownMode): string {
    match mode
    case ReduceTermMode => "reduce_term"
    case ReducePaymentMode => "reduce_payment"
    case FullCloseMode => "full_close"
  }

  function Purpose(op: Operation): string {
    match op
    case Transfer(_, _, _) => "transfer"
    case CardPayment(_, _) => "card_payment"
    case CardTransfer(_, _, _, _, _) => "card_transfer"
    case CardReveal(_) => "card_reveal"
    case CreditCreate(_, _, _) => "credit_create"
    case CreditPrepayment(_, _, _) => "credit_prepayment"
    case Withdraw(_, _) => "withdraw"
  }

  function Field(name: string, text: string): string { name + text }

  function IdField(name: string, id: nat): string { Field(name, Decimal(id)) }

  function AmountField(name: string, cents: nat): string { Field(name, MoneyText.CentsToMoney(cents)) }

  /** The parameters that follow the user and the purpose. */
  function Parameters(op: Operation): seq<string> {
    match op
    case Transfer(from, to, cents) => [IdField("from=", from), IdField("to=", to), AmountField("amount=", cents)]
    case CardPayment(card, cents) => [IdField("card_id=", card), AmountField("amount=", cents)]
    case CardTransfer(fromCard, toCard, fromAccount, toAccount, cents) =>
      [IdField("from_card_id=", fromCard), IdField("to_card_id=", toCard),
       IdField("from_account_id=", fromAccount), IdField("to_account_id=", toAccount), AmountField("amount=", cents)]
    case CardReveal(card) => [IdField("card_id=", card)]
    case CreditCreate(account, cents, term) =>
      [IdField("account_id=", account), AmountField("principal_amount=", cents), IdField("term_months=", term)]
    case CreditPrepayment(credit, cents, mode) =>
      [IdField("credit_id=", credit), AmountField("amount=", cents), Field("mode=", ModeText(mode))]
    case Withdraw(account, cents) => [IdField("account_id=", account), AmountField("amount=", cents)]
  }

  function Fields(user: nat, op: Operation): seq<string> {
    [IdField("user_id=", user), Field("purpose=", Purpose(op))] + Parameters(op)
  }

  /** The raw string that is hashed. */
  function Describe(user: nat, op: Operation): string {
    Join(Fields(user, op), '|')
  }

  // ----- every field is free of the separator and determines its value -----

  lemma IdFieldHasNoBar(name: string, id: nat)
    requires '|' !in name
    ensures '|' !in IdField(name, id)
  {
    DecimalRoundTrip(id);
  }

  lemma AmountFieldHasNoBar(name: string, cents: nat)
    requires '|' !in name
    ensures '|' !in AmountField(name, cents)
  {
    DecimalRoundTrip(cents / 100);
  }

  lemma FieldDetermines(name: string, s: string, t: string)
    requires Field(name, s) == Field(name, t)
    ensures s == t
  {
    assert s == Field(name, s)[|name|..] && t == Field(name, t)[|name|..];
  }

  lemma IdFieldDetermines(name: string, m: nat, n: nat)
    ensures IdField(name, m) == IdField(name, n) ==> m == n
  {
    if IdField(name, m) == IdField(name, n) {
      FieldDetermines(name, Decimal(m), Decimal(n));
      DecimalIsInjective(m, n);
    }
  }

  lemma AmountFieldDetermines(name: string, m: nat, n: nat)
    ensures AmountField(name, m) == AmountField(name, n) ==> m == n
  {
    if AmountField(name, m) == AmountField(name, n) {
      FieldDetermines(name, MoneyText.CentsToMoney(m), MoneyText.CentsToMoney(n));
      MoneyText.PrintedParts(m);
      MoneyText.PrintedParts(n);
    }
  }

  lemma FieldsHaveNoBar(user: nat, op: Operation)
    ensures forall i :: 0 <= i < |Fields(user, op)| ==> '|' !in Fields(user, op)[i]
  {
    hide IdField, Parameters;
    IdFieldHasNoBar("user_id=", user);
    ParametersHaveNoBar(op);
  }

  lemma ParametersHaveNoBar(op: Operation)
    ensures forall i :: 0 <= i < |Parameters(op)| ==> '|' !in Parameters(op)[i]
  {
    hide IdField, AmountField;
    match op
    case Transfer(from, to, cents) =>
      IdFieldHasNoBar("from=", from); IdFieldHasNoBar("to=", to); AmountFieldHasNoBar("amount=", cents);
    case CardPayment(card, cents) =>
      IdFieldHasNoBar("card_id=", card); AmountFieldHasNoBar("amount=", cents);
    case CardTransfer(fromCard, toCard, fromAccount, toAccount, cents) =>
      IdFieldHasNoBar("from_card_id=", fromCard); IdFieldHasNoBar("to_card_id=", toCard);
      IdFieldHasNoBar("from_account_id=", fromAccount); IdFieldHasNoBar("to_account_id=", toAccount);
      AmountFieldHasNoBar("amount=", cents);
    case CardReveal(card) => IdFieldHasNoBar("card_id=", card);
    case CreditCreate(account, cents, term) =>
      IdFieldHasNoBar("account_id=", account); AmountFieldHasNoBar("principal_amount=", cents);
      IdFieldHasNoBar("term_months=", term);
    case CreditPrepayment(credit, cents, _) =>
      IdFieldHasNoBar("credit_id=", credit); AmountFieldHasNoBar("amount=", cents);
    case Withdraw(account, cents) =>
      IdFieldHasNoBar("account_id=", account); AmountFieldHasNoBar("amount=", cents);
  }

  lemma PurposeDetermines(op: Operation, other: Operation)
    requires Field("purpose=", Purpose(op)) == Field("purpose=", Purpose(other))
    ensures Purpose(op) == Purpose(other)
  {
    FieldDetermines("purpose=", Purpose(op), Purpose(other));
  }

  lemma ParametersDetermine(op: Operation, other: Operation)
    requires Purpose(op) == Purpose(other) && Parameters(op) == Parameters(other)
    ensures op == other
  {
    hide IdField, AmountField, Field;
    match op
    case Transfer(from, to, cents) =>
      IdFieldDetermines("from=", from, other.from); IdFieldDetermines("to=", to, other.to);
      AmountFieldDetermines("amount=", cents, other.cents);
    case CardPayment(card, cents) =>
      IdFieldDetermines("card_id=", card, other.card); AmountFieldDetermines("amount=", cents, other.cents);
    case CardTransfer(fromCard, toCard, fromAccount, toAccount, cents) =>
      IdFieldDetermines("from_card_id=", fromCard, other.fromCard);
      IdFieldDetermines("to_card_id=", toCard, other.toCard);
      IdFieldDetermines("from_account_id=", fromAccount, other.fromAccount);
      IdFieldDetermines("to_account_id=", toAccount, other.toAccount);
      AmountFieldDetermines("amount=", cents, other.cents);
    case CardReveal(card) => IdFieldDetermines("card_id=", card, other.card);
    case CreditCreate(account, cents, term) =>
      IdFieldDetermines("account_id=", account, other.account);
      AmountFieldDetermines("principal_amount=", cents, other.cents);
      IdFieldDetermines("term_months=", term, other.term);
    case CreditPrepayment(credit, cents, mode) =>
      IdFieldDetermines("credit_id=", credit, other.credit); AmountFieldDetermines("amount=", cents, other.cents);
      FieldDetermines("mode=", ModeText(mode), ModeText(other.mode));
    case Withdraw(account, cents) =>
      IdFieldDetermines("account_id=", account, other.account); AmountFieldDetermines("amount=", cents, other.cents);
  }

  /** A description belongs to one user and one operation, across all purposes. */
  lemma DescriptionDetermines(user: nat, op: Operation, otherUser: nat, other: Operation)
    requires Describe(user, op) == Describe(otherUser, other)
    ensures user == otherUser && op == other
  {
    hide Parameters, IdField, Field, Purpose;
    FieldsHaveNoBar(user, op);
    FieldsHaveNoBar(otherUser, other);
    SplitJoin(Fields(user, op), '|');
    SplitJoin(Fields(otherUser, other), '|');
    var mine, theirs := Fields(user, op), Fields(otherUser, other);
    assert mine[0] == theirs[0] && mine[1] == theirs[1] && mine[2..] == theirs[2..];
    IdFieldDetermines("user_id=", user, otherUser);
    PurposeDetermines(op, other);
    ParametersDetermine(op, other);
  }
}
