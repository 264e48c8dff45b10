/**
 * `checkDiagnostics(diags, allowed)` of the parser package, as its tests fix it: the
 * diagnostics matching an allowed entry are dropped, the rest kept in their original
 * order and untouched. The matching rule (the lowered entry occurs in the lowered
 * message) is the one chosen here to fit those tests.
 */
module DiagnosticFilter {
  import opened Text
  import opened Sequences
  import opened Hcl

  /**
   * Some allowed entry, lowered, occurs in the lowered message of `d`. No entries
   * suppress nothing; an empty entry suppresses everything.
   */
  predicate Suppressed(d: Diagnostic, allowed: seq<string>): (r: bool)
    ensures allowed == [] ==> !r
    ensures "" in allowed ==> r
  {
    exists a :: a in allowed && Contains(Lower(Message(d)), Lower(a))
  }

  function CheckDiagnostics(diags: seq<Diagnostic>, allowed: seq<string>): (r: seq<Diagnostic>)
    ensures forall d :: d in r <==> d in diags && !Suppressed(d, allowed)
    ensures IsSubsequence(r, diags)
    ensures allowed == [] ==> r == diags
  {
    if diags == [] then []
    else if Suppressed(diags[0], allowed) then CheckDiagnostics(diags[1..], allowed)
    else [diags[0]] + CheckDiagnostics(diags[1..], allowed)
  }

  /** Every copy of a kept diagnostic is kept and every copy of a suppressed one dropped. */
  lemma {:induction false} CheckDiagnosticsCounts(diags: seq<Diagnostic>, allowed: seq<string>, d: Diagnostic)
    ensures multiset(CheckDiagnostics(diags, allowed))[d] == if Suppressed(d, allowed) then 0 else multiset(diags)[d]
  {
    if diags != [] {
      CheckDiagnosticsCounts(diags[1..], allowed, d);
      assert diags == [diags[0]] + diags[1..];
    }
  }

  /** The result is empty exactly when every diagnostic was suppressed. */
  lemma CheckDiagnosticsEmptyIff(diags: seq<Diagnostic>, allowed: seq<string>)
    ensures CheckDiagnostics(diags, allowed) == [] <==>
            forall i :: 0 <= i < |diags| ==> Suppressed(diags[i], allowed)
  {
  }

  /** A single diagnostic is dropped exactly when it matches some allowed entry. */
  lemma CheckSingle(d: Diagnostic, allowed: seq<string>)
    ensures CheckDiagnostics([d], allowed) == (if Suppressed(d, allowed) then [] else [d])
  {
  }

  /** Filtering works element by element: it distributes over concatenation. */
  lemma {:induction false} CheckDiagnosticsConcat(a: seq<Diagnostic>, b: seq<Diagnostic>, allowed: seq<string>)
    ensures CheckDiagnostics(a + b, allowed) == CheckDiagnostics(a, allowed) + CheckDiagnostics(b, allowed)
  {
    if a == [] {
      assert a + b == b;
    } else {
      assert (a + b)[0] == a[0];
      assert (a + b)[1..] == a[1..] + b;
      CheckDiagnosticsConcat(a[1..], b, allowed);
    }
  }

  /** Filtering by one list and then another is filtering by both lists together. */
  lemma {:induction false} CheckDiagnosticsCompose(diags: seq<Diagnostic>, first: seq<string>, second: seq<string>)
    ensures CheckDiagnostics(CheckDiagnostics(diags, first), second) == CheckDiagnostics(diags, first + second)
  {
    if diags != [] {
      var d := diags[0];
      assert Suppressed(d, first + second) <==> Suppressed(d, first) || Suppressed(d, second) by {
        if Suppressed(d, first + second) {
          var a :| a in first + second && Contains(Lower(Message(d)), Lower(a));
          assert a in first || a in second;
        }
      }
      CheckDiagnosticsCompose(diags[1..], first, second);
      if !Suppressed(d, first) {
        var rest := CheckDiagnostics(diags[1..], first);
        assert ([d] + rest)[0] == d && ([d] + rest)[1..] == rest;
      }
    }
  }

  /** Filtering a second time with the same list changes nothing. */
  lemma {:induction false} CheckDiagnosticsIdempotent(diags: seq<Diagnostic>, allowed: seq<string>)
    ensures CheckDiagnostics(CheckDiagnostics(diags, allowed), allowed) == CheckDiagnostics(diags, allowed)
  {
    if diags != [] {
      CheckDiagnosticsIdempotent(diags[1..], allowed);
      if !Suppressed(diags[0], allowed) {
        var rest := CheckDiagnostics(diags[1..], allowed);
        assert ([diags[0]] + rest)[0] == diags[0] && ([diags[0]] + rest)[1..] == rest;
      }
    }
  }

  /** An entry occurring, ignoring case, in the summary suppresses the diagnostic. */
  lemma SummaryMatchSuppresses(d: Diagnostic, allowed: seq<string>, a: string)
    requires a in allowed && Contains(Lower(d.summary), Lower(a))
    ensures Suppressed(d, allowed)
  {
    LowerConcat(d.summary, "; " + d.detail);
    assert Message(d) == d.summary + ("; " + d.detail);
    ContainsExtend(Lower(d.summary), Lower("; " + d.detail), Lower(a));
  }

  /** An allowed entry spelled exactly like the summary, capitals included, suppresses it. */
  lemma SameCaseSummarySuppresses(d: Diagnostic, allowed: seq<string>)
    requires d.summary in allowed
    ensures Suppressed(d, allowed)
  {
    SummaryMatchSuppresses(d, allowed, d.summary);
  }

  /** An entry with a letter that appears, in neither case, in the summary or the detail does not match. */
  lemma AbsentLetterNotSuppressed(d: Diagnostic, a: string, k: int)
    requires 0 <= k < |a| && 'a' <= a[k] <= 'z'
    requires a[k] !in d.summary && a[k] !in d.detail
    requires (a[k] as int - 32) as char !in d.summary && (a[k] as int - 32) as char !in d.detail
    ensures !Suppressed(d, [a])
  {
    var c := a[k];
    var upper := (c as int - 32) as char;
    assert c !in Message(d) && upper !in Message(d) by {
      assert Message(d) == d.summary + "; " + d.detail;
    }
    LowerMissing(Message(d), c);
    MissingCharNotSuppressed(d, a, k);
  }

  /** A diagnostic whose lowered message lacks a character of an entry is not matched by it. */
  lemma MissingCharNotSuppressed(d: Diagnostic, a: string, k: int)
    requires 0 <= k < |a| && LowerChar(a[k]) !in Lower(Message(d))
    ensures !Suppressed(d, [a])
  {
    if Contains(Lower(Message(d)), Lower(a)) {
      ContainsChar(Lower(Message(d)), Lower(a), k);
    }
  }
}
