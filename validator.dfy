/** The heuristic checks run on the model's free-text reply
    (`validate_invoice_data`). */
module Validator {
  import opened Text

  const MissingTotal := "Total amount might be unclear"
  const TotalBeforeLineItems := "Potential mismatch between total and line items"

  /** Reference reading of the ordering rule: the first "total" starts strictly
      before the first "line item". */
  ghost predicate TotalPrecedesLineItem(t: string) {
    exists i: nat, j: nat ::
      IsFirstOccurrence(t, "total", i) && IsFirstOccurrence(t, "line item", j) && i < j
  }

  /** The warnings for a reply, in rule order. The second rule reads both
      indices only after both substrings were found, so it cannot fail. */
  function ValidateInvoiceData(response: string): (issues: seq<string>)
    ensures |issues| <= 1
    ensures forall m :: m in issues ==> m == MissingTotal || m == TotalBeforeLineItems
  {
    var lower := Lower(response);
    var missing :=
      if !Contains(lower, "total amount") && !Contains(lower, "total") then [MissingTotal] else [];
    var mismatch :=
      if Contains(lower, "total") && Contains(lower, "line item") then
        var totalIndex := FirstIndex(lower, "total").value;
        var lineItemsIndex := FirstIndex(lower, "line item").value;
        if totalIndex < lineItemsIndex then [TotalBeforeLineItems] else []
      else [];
    missing + mismatch
  }

  /** The same checks written as the source writes them: conditional appends
      to an initially empty list. */
  method CollectIssues(response: string) returns (issues: seq<string>)
    ensures issues == ValidateInvoiceData(response)
    ensures |issues| <= 1
  {
    var responseLower := Lower(response);
    issues := [];
    if !Contains(responseLower, "total amount") && !Contains(responseLower, "total") {
      issues := issues + [MissingTotal];
    }
    if Contains(responseLower, "total") && Contains(responseLower, "line item") {
      var totalIndex := FirstIndex(responseLower, "total").value;
      var lineItemsIndex := FirstIndex(responseLower, "line item").value;
      if totalIndex < lineItemsIndex {
        issues := issues + [TotalBeforeLineItems];
      }
    }
  }

  /** "total amount" contains "total", so the first disjunct of the first rule
      never decides anything. */
  lemma TotalAmountSubsumed(t: string)
    ensures (!Contains(t, "total amount") && !Contains(t, "total")) <==> !Contains(t, "total")
  {
    if Contains(t, "total amount") {
      ContainsPrefix(t, "total amount", "total");
    }
  }

  /** The first warning appears exactly when the folded reply has no "total". */
  lemma MissingTotalIff(response: string)
    ensures MissingTotal in ValidateInvoiceData(response)
        <==> forall i: nat :: !Occurs(Lower(response), "total", i)
  {
    TotalAmountSubsumed(Lower(response));
  }

  /** The second warning appears exactly when the folded reply's first "total"
      comes before its first "line item". */
  lemma MismatchIff(response: string)
    ensures TotalBeforeLineItems in ValidateInvoiceData(response)
        <==> TotalPrecedesLineItem(Lower(response))
  {
    var t := Lower(response);
    if TotalPrecedesLineItem(t) {
      var i: nat, j: nat :|
        IsFirstOccurrence(t, "total", i) && IsFirstOccurrence(t, "line item", j) && i < j;
      FirstOccurrenceUnique(t, "total", i, FirstIndex(t, "total").value);
      FirstOccurrenceUnique(t, "line item", j, FirstIndex(t, "line item").value);
    }
  }

  /** The whole outcome: one warning or none, and which one. */
  lemma Outcome(response: string)
    ensures ValidateInvoiceData(response) ==
      if !Contains(Lower(response), "total") then [MissingTotal]
      else if TotalPrecedesLineItem(Lower(response)) then [TotalBeforeLineItems]
      else []
  {
    MissingTotalIff(response);
    MismatchIff(response);
    var issues := ValidateInvoiceData(response);
    if |issues| == 1 {
      assert issues[0] in issues;
    }
  }

  /** The checks see only the folded text: folding first changes nothing. */
  lemma CaseInsensitive(response: string)
    ensures ValidateInvoiceData(Lower(response)) == ValidateInvoiceData(response)
  {
    LowerIdempotent(response);
  }

  /** An empty reply has no "total". */
  lemma EmptyReply()
    ensures ValidateInvoiceData("") == [MissingTotal]
  {
    assert !Occurs(Lower(""), "total", 0);
    MissingTotalIff("");
  }

  /** A reply that mentions "line item" before any "total" draws no warning. */
  lemma LineItemFirstNoWarning(response: string, j: nat)
    requires Contains(Lower(response), "total")
    requires Occurs(Lower(response), "line item", j)
    requires forall i: nat :: i <= j ==> !Occurs(Lower(response), "total", i)
    ensures ValidateInvoiceData(response) == []
  {
    Outcome(response);
  }

  /** "total" ahead of "line item": the ordering warning, and only it. */
  lemma TotalFirstExample()
    ensures ValidateInvoiceData("Total: 100, Line Item: paper") == [TotalBeforeLineItems]
  {
    var s := "Total: 100, Line Item: paper";
    assert Lower(s) == "total: 100, line item: paper";
    TotalFirstOrder(Lower(s));
    Outcome(s);
  }

  /** In that reply, folded, the first "total" is at 0 and the first "line item" at 12. */
  lemma TotalFirstOrder(t: string)
    requires t == "total: 100, line item: paper"
    ensures TotalPrecedesLineItem(t)
  {
    assert IsFirstOccurrence(t, "total", 0);
    forall k: nat | k < 12 ensures !Occurs(t, "line item", k) {
      assert t[k..k + 9][0] == t[k] && t[k..k + 9][1] == t[k + 1];
    }
    assert IsFirstOccurrence(t, "line item", 12);
  }

  /** "line item" ahead of "total": no warning. */
  lemma LineItemFirstExample()
    ensures ValidateInvoiceData("Line Item: paper, Total: 100") == []
  {
    var s := "Line Item: paper, Total: 100";
    var t := Lower(s);
    assert t == "line item: paper, total: 100";
    assert Occurs(t, "total", 18);
    assert Occurs(t, "line item", 0);
    assert !Occurs(t, "total", 0) by { assert t[0..5][0] == t[0]; }
    LineItemFirstNoWarning(s, 0);
  }

  /** A reply without "total": the missing-total warning. */
  lemma NoTotalExample()
    ensures ValidateInvoiceData("Thank you for your purchase") == [MissingTotal]
  {
    var s := "Thank you for your purchase";
    var t := Lower(s);
    assert t == "thank you for your purchase";
    forall i: nat ensures !Occurs(t, "total", i) {
      if i + 5 <= |t| {
        assert t[i..i + 5][0] == t[i] && t[i..i + 5][1] == t[i + 1];
      }
    }
    MissingTotalIff(s);
  }
}
