/** The four fixed scenarios the parser package's tests pin `checkDiagnostics` down with. */
module DiagnosticFilterTests {
  import opened Text
  import opened Hcl
  import opened DiagnosticFilter

  const NotAllowed := Diagnostic(DiagError, "Not allowed", "This is not allowed")
  const AllowedDiagnostic := Diagnostic(DiagError, "Allowed diagnostic", "This is allowed")
  const AllowedOne := Diagnostic(DiagError, "Allowed diagnostic one", "This is allowed")
  const AllowedTwo := Diagnostic(DiagError, "Allowed diagnostic two", "This is allowed")

  /** No allow-list: the diagnostics come back as they went in. */
  lemma NoAllowedErrors()
    ensures CheckDiagnostics([NotAllowed], []) == [NotAllowed]
  {
  }

  /** The one diagnostic matches the allow-list: nothing comes back. */
  lemma AllAllowedErrors()
    ensures CheckDiagnostics([AllowedDiagnostic], ["Allowed diagnostic"]) == []
  {
    SameCaseSummarySuppresses(AllowedDiagnostic, ["Allowed diagnostic"]);
    CheckSingle(AllowedDiagnostic, ["Allowed diagnostic"]);
  }

  /** "Allowed diagnostic" does not occur in the disallowed diagnostic's message: it has no 'g'. */
  lemma NotAllowedIsKept()
    ensures !Suppressed(NotAllowed, ["Allowed diagnostic"])
  {
    assert "Allowed diagnostic"[11] == 'g';
    assert 'g' !in "Not allowed" && 'G' !in "Not allowed";
    assert 'g' !in "This is not allowed" && 'G' !in "This is not allowed";
    AbsentLetterNotSuppressed(NotAllowed, "Allowed diagnostic", 11);
  }

  /** Of an allowed and a disallowed diagnostic only the disallowed one comes back. */
  lemma MixOfErrors()
    ensures CheckDiagnostics([NotAllowed, AllowedDiagnostic], ["Allowed diagnostic"]) == [NotAllowed]
  {
    var allowed := ["Allowed diagnostic"];
    NotAllowedIsKept();
    SameCaseSummarySuppresses(AllowedDiagnostic, allowed);
    CheckSingle(AllowedDiagnostic, allowed);
    CheckSingle(NotAllowed, allowed);
    CheckDiagnosticsConcat([NotAllowed], [AllowedDiagnostic], allowed);
    assert [NotAllowed] + [AllowedDiagnostic] == [NotAllowed, AllowedDiagnostic];
  }

  /** Two entries suppress two different diagnostics: nothing comes back. */
  lemma MultipleAllowedErrors()
    ensures CheckDiagnostics([AllowedOne, AllowedTwo], ["Allowed diagnostic one", "Allowed diagnostic two"]) == []
  {
    var allowed := ["Allowed diagnostic one", "Allowed diagnostic two"];
    SameCaseSummarySuppresses(AllowedOne, allowed);
    SameCaseSummarySuppresses(AllowedTwo, allowed);
    CheckDiagnosticsEmptyIff([AllowedOne, AllowedTwo], allowed);
  }
}
