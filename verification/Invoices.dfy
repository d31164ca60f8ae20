/** Invoice creation: GST components rounded to the paisa. Amounts are exact decimals in paise, rates in percent. */
module Invoices {
  import opened Wrappers
  import opened Rounding

  datatype Request = Request(subtotal: real, discount: real, cgstRate: real, sgstRate: real, igstRate: real)

  datatype Status = Pending | Generated

  datatype Invoice = Invoice(
    request: Request, cgst: int, sgst: int, igst: int, total: real, status: Status, pdfUrl: Option<string>)

  function ExactTax(taxable: real, rate: real): real {
    taxable * rate / 100.0
  }

  function Tax(taxable: real, rate: real): int {
    HalfEven(ExactTax(taxable, rate))
  }

  class InvoiceService {
    var invoices: map<nat, Invoice>

    constructor ()
      ensures invoices == map[]
    {
      invoices := map[];
    }

    /** Each component is within half a paisa of the exact tax, a tie going to the even paisa, and the total adds up. */
    method CreateInvoice(id: nat, r: Request) returns (invoice: Invoice)
      requires id !in invoices
      modifies this
      ensures invoices == old(invoices)[id := invoice]
      ensures invoice.request == r && invoice.status == Pending && invoice.pdfUrl == None
      ensures invoice.cgst == Tax(r.subtotal - r.discount, r.cgstRate)
      ensures invoice.sgst == Tax(r.subtotal - r.discount, r.sgstRate)
      ensures invoice.igst == Tax(r.subtotal - r.discount, r.igstRate)
      ensures invoice.total == r.subtotal - r.discount + (invoice.cgst + invoice.sgst + invoice.igst) as real
    {
      var taxable := r.subtotal - r.discount;
      var cgst := Tax(taxable, r.cgstRate);
      var sgst := Tax(taxable, r.sgstRate);
      var igst := Tax(taxable, r.igstRate);
      var total := taxable + cgst as real + sgst as real + igst as real;
      invoice := Invoice(r, cgst, sgst, igst, total, Pending, None);
      invoices := invoices[id := invoice];
    }

    /** Generating the document changes no amount. */
    method MarkGenerated(id: nat, url: string)
      modifies this
      ensures id !in old(invoices) ==> invoices == old(invoices)
      ensures id in old(invoices) ==>
        invoices == old(invoices)[id := old(invoices)[id].(status := Generated, pdfUrl := Some(url))]
    {
      if id in invoices {
        invoices := invoices[id := invoices[id].(status := Generated, pdfUrl := Some(url))];
      }
    }
  }

  // ---- rounding laws --------------------------------------------------------------------------------

  /** A component is the nearest paisa to amount * rate / 100, a tie going to the even one. */
  lemma TaxIsNearest(taxable: real, rate: real, exact: real)
    requires 100.0 * exact == taxable * rate
    ensures Nearest(Tax(taxable, rate), exact)
  {
    assert ExactTax(taxable, rate) == exact;
  }

  lemma ExactTaxOfSum(taxable: real, p: real, q: real)
    ensures ExactTax(taxable, p + q) == ExactTax(taxable, p) + ExactTax(taxable, q)
  {
    assert taxable * (p + q) == taxable * p + taxable * q;
  }

  /** The three rounded components together are within a paisa and a half of the exact tax at the summed rate. */
  lemma TotalNearExact(taxable: real, cgstRate: real, sgstRate: real, igstRate: real, exact: real)
    requires 100.0 * exact == taxable * (cgstRate + sgstRate + igstRate)
    ensures var rounded := (Tax(taxable, cgstRate) + Tax(taxable, sgstRate) + Tax(taxable, igstRate)) as real;
      -1.5 <= rounded - exact <= 1.5
  {
    var a, b, c := Tax(taxable, cgstRate), Tax(taxable, sgstRate), Tax(taxable, igstRate);
    ExactTaxOfSum(taxable, cgstRate, sgstRate);
    ExactTaxOfSum(taxable, cgstRate + sgstRate, igstRate);
    assert (a + b + c) as real == a as real + b as real + c as real;
  }

  /** Charging a rate as two equal halves (CGST and SGST) differs from charging it whole (IGST) by at most a paisa,
      and not at all exactly when the whole tax is an even number of paise. */
  lemma SplitAgainstWhole(taxable: real, rate: real)
    ensures var split, whole := 2 * Tax(taxable, rate / 2.0), Tax(taxable, rate);
      -1 <= split - whole <= 1 && (split == whole <==> whole % 2 == 0)
  {
    var x, whole := ExactTax(taxable, rate), Tax(taxable, rate);
    assert ExactTax(taxable, rate / 2.0) == x / 2.0 by {
      assert taxable * (rate / 2.0) == taxable * rate / 2.0;
    }
    var half := HalfEven(x / 2.0);
    assert 2.0 * half as real - 1.0 <= x <= 2.0 * half as real + 1.0;
    assert (2 * half) as real == 2.0 * half as real;
    if whole % 2 == 0 {
      var m := whole / 2;
      assert whole as real == 2.0 * m as real;
      HalfEvenIsUnique(x / 2.0, m);
    }
  }

  /** A refund invoice (negative taxable amount) carries the negated taxes. */
  lemma RefundMirrors(taxable: real, rate: real)
    ensures Tax(-taxable, rate) == -Tax(taxable, rate)
  {
    assert -taxable * rate == -(taxable * rate);
    HalfEvenOdd(ExactTax(taxable, rate));
  }

  /** A larger taxable amount is never taxed less. */
  lemma TaxMonotone(small: real, large: real, rate: real)
    requires small <= large && rate >= 0.0
    ensures Tax(small, rate) <= Tax(large, rate)
  {
    assert (large - small) * rate >= 0.0;
    assert large * rate == small * rate + (large - small) * rate;
    HalfEvenMonotone(ExactTax(small, rate), ExactTax(large, rate));
  }
}
