/** What a transfer description says about the account on the other side. */
module Descriptions {
  import opened Common

  datatype Constraint = Constraint(accountType: Option<string>, currency: Option<string>)

  /** The known phrases, income and expense maps merged. */
  type Phrases = map<string, Constraint>

  const FROM_PREFIX := "З "
  const TO_PREFIX := "На "
  const GENERIC := "Переказ на картку"
  const MULTI_HOP := "для переказу на"

  /** Absent and empty descriptions, and unknown ones, say nothing. */
  function ParseDescription(phrases: Phrases, d: Option<string>): Option<Constraint> {
    if d.None? || d.value == "" || d.value !in phrases then None else Some(phrases[d.value])
  }

  predicate IsTransferDescription(d: Option<string>) {
    d.Some? && d.value != "" && (FROM_PREFIX <= d.value || TO_PREFIX <= d.value || d.value == GENERIC)
  }

  predicate ContainsAt(s: string, part: string, i: nat) {
    i <= |s| && part <= s[i..]
  }

  predicate IsMultiHop(phrases: Phrases, d: Option<string>) {
    && ParseDescription(phrases, d).Some?
    && exists i: nat :: i <= |d.value| && ContainsAt(d.value, MULTI_HOP, i)
  }

  ghost predicate Occurs(part: string, s: string) {
    exists before, after :: s == before + part + after
  }

  lemma OccursIff(part: string, s: string)
    ensures Occurs(part, s) <==> exists i: nat :: i <= |s| && ContainsAt(s, part, i)
  {
    if Occurs(part, s) {
      var before, after :| s == before + part + after;
      assert s[|before|..] == part + after;
      assert ContainsAt(s, part, |before|);
    }
    if i: nat :| i <= |s| && ContainsAt(s, part, i) {
      assert s == s[..i] + part + s[i + |part|..];
    }
  }

  /** A known phrase is multi-hop exactly when the marker occurs somewhere in it. */
  lemma MultiHopIff(phrases: Phrases, d: string)
    ensures IsMultiHop(phrases, Some(d)) <==> d != "" && d in phrases && Occurs("для переказу на", d)
  {
    OccursIff(MULTI_HOP, d);
  }

  /** Which texts speak of a transfer: the two prefixes, and the one phrase that names no direction. */
  lemma TransferPhraseIff(d: string)
    ensures IsTransferDescription(Some(d)) <==>
            (exists rest :: d == "З " + rest || d == "На " + rest) || d == "Переказ на картку"
    ensures !IsTransferDescription(None)
  {
    if FROM_PREFIX <= d { assert d == FROM_PREFIX + d[|FROM_PREFIX|..]; }
    if TO_PREFIX <= d { assert d == TO_PREFIX + d[|TO_PREFIX|..]; }
  }

  predicate ConstraintMatches(c: Option<Constraint>, accountType: string, currency: string) {
    c.Some? ==>
      && (c.value.accountType.Some? ==> c.value.accountType.value == accountType)
      && (c.value.currency.Some? ==> c.value.currency.value == currency)
  }

  /** The income description names the expense account and the expense description the income account. */
  predicate ValidatePair(phrases: Phrases, incomeDesc: Option<string>, expenseDesc: Option<string>,
                         incomeType: string, incomeCurrency: string, expenseType: string, expenseCurrency: string)
  {
    && ConstraintMatches(ParseDescription(phrases, incomeDesc), expenseType, expenseCurrency)
    && ConstraintMatches(ParseDescription(phrases, expenseDesc), incomeType, incomeCurrency)
  }
}
