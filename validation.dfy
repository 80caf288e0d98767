/** The cross-field consistency check, run on every change of the inputs. */
module Validation {
  import opened Employee
  import opened RuleLists

  const CompanyExceedsCareer := "❌ Years at Company cannot exceed Total Working Years."
  const ManagerExceedsCompany := "❌ Years with Current Manager cannot exceed Years at Company."
  const RoleExceedsCareer := "❌ Years in Current Role cannot exceed Total Working Years."

  /** The three messages, in the order the checks run. */
  const ValidationMessages: seq<string> := [CompanyExceedsCareer, ManagerExceedsCompany, RoleExceedsCareer]

  /** The three consistency rules a record must satisfy before it is scored. */
  predicate Consistent(r: EmployeeRecord) {
    r.yearsAtCompany <= r.totalWorkingYears &&
    r.yearsWithCurrManager <= r.yearsAtCompany &&
    r.yearsInCurrentRole <= r.totalWorkingYears
  }

  /** Which of the three rules `r` breaks, in check order. */
  function Broken(r: EmployeeRecord): (b: seq<bool>)
    ensures |b| == |ValidationMessages|
  {
    [ r.yearsAtCompany > r.totalWorkingYears,
      r.yearsWithCurrManager > r.yearsAtCompany,
      r.yearsInCurrentRole > r.totalWorkingYears ]
  }

  /** The violation report: the message of every broken rule, in check order. */
  function Violations(r: EmployeeRecord): seq<string> {
    Select(Broken(r), ValidationMessages)
  }

  /** The validator: all three checks run, none short-circuits the others,
      and each broken one appends its message. */
  method ValidateInput(r: EmployeeRecord) returns (errors: seq<string>)
    ensures errors == Violations(r)
    ensures errors == [] <==> Consistent(r)
  {
    errors := [];
    if r.yearsAtCompany > r.totalWorkingYears {
      errors := errors + [CompanyExceedsCareer];
    }
    if r.yearsWithCurrManager > r.yearsAtCompany {
      errors := errors + [ManagerExceedsCompany];
    }
    if r.yearsInCurrentRole > r.totalWorkingYears {
      errors := errors + [RoleExceedsCareer];
    }
    assert Violations(r) == errors by { UnfoldSelect3(Broken(r), ValidationMessages); }
    ViolationsEmptyIffConsistent(r);
  }

  /** The three messages are pairwise different. */
  lemma ValidationMessagesDistinct()
    ensures Distinct(ValidationMessages)
  {
  }

  /** The report is empty exactly when all three rules hold. */
  lemma ViolationsEmptyIffConsistent(r: EmployeeRecord)
    ensures Violations(r) == [] <==> Consistent(r)
  {
    SelectEmpty(Broken(r), ValidationMessages);
    if !Consistent(r) {
      assert Broken(r)[0] || Broken(r)[1] || Broken(r)[2];
    }
  }

  /** The report holds one message per broken rule, so at most three. */
  lemma ViolationsLength(r: EmployeeRecord)
    ensures |Violations(r)| ==
      (if r.yearsAtCompany > r.totalWorkingYears then 1 else 0) +
      (if r.yearsWithCurrManager > r.yearsAtCompany then 1 else 0) +
      (if r.yearsInCurrentRole > r.totalWorkingYears then 1 else 0)
    ensures |Violations(r)| <= 3
  {
    UnfoldSelect3(Broken(r), ValidationMessages);
  }

  /** Each message is reported exactly when its own rule is broken. */
  lemma ViolationsReportBrokenRules(r: EmployeeRecord)
    ensures CompanyExceedsCareer in Violations(r) <==> r.yearsAtCompany > r.totalWorkingYears
    ensures ManagerExceedsCompany in Violations(r) <==> r.yearsWithCurrManager > r.yearsAtCompany
    ensures RoleExceedsCareer in Violations(r) <==> r.yearsInCurrentRole > r.totalWorkingYears
  {
    ValidationMessagesDistinct();
    SelectMember(Broken(r), ValidationMessages, 0);
    SelectMember(Broken(r), ValidationMessages, 1);
    SelectMember(Broken(r), ValidationMessages, 2);
  }

  /** The messages come in check order and none is repeated. */
  lemma ViolationsOrderedAndDistinct(r: EmployeeRecord)
    ensures IsSubsequence(Violations(r), ValidationMessages)
    ensures Distinct(Violations(r))
  {
    SelectOrdered(Broken(r), ValidationMessages);
    ValidationMessagesDistinct();
    SelectDistinct(Broken(r), ValidationMessages);
  }

  /** A record whose tenure exceeds its career always leads with that message. */
  lemma CompanyViolationComesFirst(r: EmployeeRecord)
    requires r.yearsAtCompany > r.totalWorkingYears
    ensures |Violations(r)| >= 1 && Violations(r)[0] == CompanyExceedsCareer
  {
  }

  /** The untouched form passes validation. */
  lemma InitialRecordIsConsistent()
    ensures Violations(InitialRecord()) == []
  {
  }

  /** The checks do not short-circuit: a record inside every widget range can
      break all three rules at once, and then all three messages are reported. */
  lemma AllThreeViolationsReported()
    ensures var r := EmployeeRecord(0, 0, 1, 1, 1000, 18, 0, 2, 1, 1, 1);
      InDomain(r) && Violations(r) == ValidationMessages
  {
  }
}
