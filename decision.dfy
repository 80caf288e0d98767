/** What the dashboard shows once a record has been submitted: the gate that
    keeps inconsistent records away from the classifier, the stay/leave
    label, and the heuristic risk indicators. */
module Decision {
  import opened Employee
  import opened RuleLists
  import opened Validation

  /** The classifier's verdict as the dashboard reports it. */
  datatype Label = Stay | Leave

  /** Class 1 of the classifier is attrition; any other output reads as staying. */
  function LabelOf(prediction: int): Label {
    if prediction == 1 then Leave else Stay
  }

  /** The class number the classifier uses for a label. */
  function ClassOf(verdict: Label): int {
    match verdict
    case Stay => 0
    case Leave => 1
  }

  /** The mapping is never inverted: for the classifier's two classes it is
      a bijection whose inverse is `ClassOf`, and every other output is Stay. */
  lemma LabelMapping(prediction: int, verdict: Label)
    ensures LabelOf(prediction) == Leave <==> prediction == 1
    ensures prediction in {0, 1} ==> ClassOf(LabelOf(prediction)) == prediction
    ensures LabelOf(ClassOf(verdict)) == verdict
  {
  }

  const OvertimeRisk := "⚠️ Employee is doing overtime frequently."
  const LowSatisfactionRisk := "⚠️ Low job satisfaction may increase attrition risk."
  const PoorBalanceRisk := "⚠️ Poor work-life balance may increase attrition risk."

  /** The three risk indicators, in the order the rules run. */
  const RiskMessages: seq<string> := [OvertimeRisk, LowSatisfactionRisk, PoorBalanceRisk]

  /** Which of the three risk rules fire for `r`, in rule order. */
  function RiskFires(r: EmployeeRecord): (f: seq<bool>)
    ensures |f| == |RiskMessages|
  {
    [r.overTime == 1, r.jobSatisfaction <= 2, r.workLifeBalance <= 2]
  }

  /** The risk indicators of `r`: the message of every firing rule, in rule order. */
  function RiskFlags(r: EmployeeRecord): seq<string> {
    Select(RiskFires(r), RiskMessages)
  }

  /** The risk block: each rule that fires appends its message. */
  method DeriveRiskFlags(r: EmployeeRecord) returns (flags: seq<string>)
    ensures flags == RiskFlags(r)
    ensures |flags| <= 3
  {
    flags := [];
    if r.overTime == 1 {
      flags := flags + [OvertimeRisk];
    }
    if r.jobSatisfaction <= 2 {
      flags := flags + [LowSatisfactionRisk];
    }
    if r.workLifeBalance <= 2 {
      flags := flags + [PoorBalanceRisk];
    }
    UnfoldSelect3(RiskFires(r), RiskMessages);
  }

  /** The three risk messages are pairwise different. */
  lemma RiskMessagesDistinct()
    ensures Distinct(RiskMessages)
  {
  }

  /** Each indicator appears exactly when its rule fires. */
  lemma RiskFlagsReportFiredRules(r: EmployeeRecord)
    ensures OvertimeRisk in RiskFlags(r) <==> r.overTime == 1
    ensures LowSatisfactionRisk in RiskFlags(r) <==> r.jobSatisfaction <= 2
    ensures PoorBalanceRisk in RiskFlags(r) <==> r.workLifeBalance <= 2
  {
    RiskMessagesDistinct();
    SelectMember(RiskFires(r), RiskMessages, 0);
    SelectMember(RiskFires(r), RiskMessages, 1);
    SelectMember(RiskFires(r), RiskMessages, 2);
  }

  /** The indicators keep the rule order, none repeats, and there are at most three. */
  lemma RiskFlagsOrderedAndDistinct(r: EmployeeRecord)
    ensures IsSubsequence(RiskFlags(r), RiskMessages)
    ensures Distinct(RiskFlags(r))
    ensures |RiskFlags(r)| <= 3
  {
    SelectOrdered(RiskFires(r), RiskMessages);
    RiskMessagesDistinct();
    SelectDistinct(RiskFires(r), RiskMessages);
    SelectLength(RiskFires(r), RiskMessages);
  }

  /** No indicator is shown exactly when there is no overtime and both
      satisfaction scores are 3 or more. */
  lemma RiskFlagsEmptyIff(r: EmployeeRecord)
    ensures RiskFlags(r) == [] <==>
      r.overTime != 1 && r.jobSatisfaction >= 3 && r.workLifeBalance >= 3
  {
    SelectEmpty(RiskFires(r), RiskMessages);
    if r.overTime == 1 || r.jobSatisfaction < 3 || r.workLifeBalance < 3 {
      assert RiskFires(r)[0] || RiskFires(r)[1] || RiskFires(r)[2];
    }
  }

  /** The indicators read OverTime, JobSatisfaction and WorkLifeBalance and
      none of the other eight fields. */
  lemma RiskFlagsReadThreeFields(r: EmployeeRecord, s: EmployeeRecord)
    requires r.overTime == s.overTime
    requires r.jobSatisfaction == s.jobSatisfaction
    requires r.workLifeBalance == s.workLifeBalance
    ensures RiskFlags(r) == RiskFlags(s)
  {
  }

  /** What one submission leads to. */
  datatype Outcome =
    | Blocked(errors: seq<string>)                   // inconsistencies are listed, nothing is scored
    | AwaitingClick                                  // consistent, "Predict Attrition" not pressed
    | Shown(verdict: Label, riskFlags: seq<string>)     // the verdict and its risk indicators

  /** One cycle: validate; on a clean record, and once the operator presses
      the button, consult the classifier `predict` on the record, map its
      class to a label, and derive the risk indicators. */
  function RunCycle(r: EmployeeRecord, clicked: bool, predict: EmployeeRecord -> int): Outcome {
    var errors := Violations(r);
    if errors != [] then Blocked(errors)
    else if !clicked then AwaitingClick
    else Shown(LabelOf(predict(r)), RiskFlags(r))
  }

  /** A cycle stops at validation exactly when a consistency rule is broken,
      and then reports every violation. */
  lemma BlockedIffInconsistent(r: EmployeeRecord, clicked: bool, predict: EmployeeRecord -> int)
    ensures RunCycle(r, clicked, predict).Blocked? <==> !Consistent(r)
    ensures RunCycle(r, clicked, predict).Blocked? ==>
      RunCycle(r, clicked, predict).errors == Violations(r) != []
  {
    ViolationsEmptyIffConsistent(r);
  }

  /** The classifier is consulted only for a consistent record whose button
      was pressed: otherwise no label and no risk indicator is produced, and
      replacing the classifier changes nothing. */
  lemma ClassifierGated(r: EmployeeRecord, clicked: bool, p: EmployeeRecord -> int, q: EmployeeRecord -> int)
    requires !Consistent(r) || !clicked
    ensures !RunCycle(r, clicked, p).Shown?
    ensures RunCycle(r, clicked, p) == RunCycle(r, clicked, q)
  {
    ViolationsEmptyIffConsistent(r);
  }

  /** A consistent, submitted record is always scored; its label follows the
      classifier's class exactly, and its indicators do not depend on the
      classifier at all. */
  lemma ShownVerdict(r: EmployeeRecord, p: EmployeeRecord -> int, q: EmployeeRecord -> int)
    requires Consistent(r)
    ensures RunCycle(r, true, p).Shown?
    ensures RunCycle(r, true, p).verdict == Leave <==> p(r) == 1
    ensures RunCycle(r, true, p).riskFlags == RunCycle(r, true, q).riskFlags == RiskFlags(r)
  {
    ViolationsEmptyIffConsistent(r);
  }

  /** Tenure 12 over a 10-year career: the cycle is blocked with the single
      tenure message, whatever the classifier. */
  lemma ScenarioTenureExceedsCareer(clicked: bool, predict: EmployeeRecord -> int)
    ensures var r := EmployeeRecord(1, 10, 2, 12, 4000, 29, 0, 2, 3, 2, 2);
      RunCycle(r, clicked, predict) == Blocked([CompanyExceedsCareer])
  {
  }

  /** A consistent record with no overtime and high satisfaction, scored 0:
      "stay", with no indicators. */
  lemma ScenarioStayNoRisk(predict: EmployeeRecord -> int)
    ensures var r := EmployeeRecord(0, 10, 2, 5, 4000, 29, 0, 2, 3, 4, 4);
      predict(r) == 0 ==> RunCycle(r, true, predict) == Shown(Stay, [])
  {
  }

  /** The same record with overtime and satisfaction 1: the overtime and the
      satisfaction indicators, in that order, whatever the label. */
  lemma ScenarioOvertimeLowSatisfaction(predict: EmployeeRecord -> int)
    ensures var r := EmployeeRecord(1, 10, 2, 5, 4000, 29, 0, 2, 3, 1, 4);
      RunCycle(r, true, predict).Shown? &&
      RunCycle(r, true, predict).riskFlags == [OvertimeRisk, LowSatisfactionRisk]
  {
  }
}
