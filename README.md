# Employee attrition dashboard: validation and decision core

This project models the decision logic of a single-page attrition dashboard
(`app.py`). An operator fills in eleven employee attributes. The page checks
three cross-field consistency rules. Only a consistent record, and only once
the "Predict Attrition" button is pressed, is given to a pre-trained
classifier. The classifier's class 1 is shown as "likely to leave" and any
other class as "likely to stay". Alongside the verdict the page lists up to
three heuristic risk indicators derived from the raw inputs.

Modules:

- `Employee` (`employee.dfy`): the eleven-field record, the ranges the form's
  widgets allow (`InDomain`), and the form's initial record.
- `Validation` (`validation.dfy`): the three consistency rules, the
  validator as a method that appends messages one check at a time, and the
  specification function `Violations` it is proved equal to.
- `Decision` (`decision.dfy`): the label mapping, the risk-indicator block
  (a method proved equal to the function `RiskFlags`), and one full cycle
  `RunCycle` with its three outcomes: blocked, waiting for the button, or
  shown.
- `RuleLists` (`rule_lists.dfy`): both the validator and the risk block
  report the messages of every rule that fires, in rule order, without
  short-circuiting. `Select` defines that once. Its lemmas prove that the
  report is exactly the firing rules' messages, in order, without
  duplicates, one per firing rule.

The specification functions `Employee.InDomain` (app.py:38-48),
`Validation.Violations` (app.py:72-80), `Decision.LabelOf` (app.py:105-108),
`Decision.RiskFlags` (app.py:111-117) and `Decision.RunCycle` (app.py:82-117)
define the behaviour; their properties are the lemmas in the table below.

The classifier is a parameter `predict: EmployeeRecord -> int` of
`RunCycle`. The button is a boolean parameter `clicked`. All message
strings are the source's own, including the `❌ ` and `⚠️ ` prefixes.

## Model

| member | source | states |
|---|---|---|
| `Employee.InitialRecord` | app.py:38-48 | the form's starting values (slider defaults, first option of every radio and select box) lie inside every widget's range |
| `Validation.ValidateInput` | app.py:72-80 | the appending validator returns exactly `Violations(r)`, and returns the empty list if and only if all three rules hold |
| `Validation.ViolationsEmptyIffConsistent` | app.py:72-80 | no violation is reported if and only if YearsAtCompany ≤ TotalWorkingYears, YearsWithCurrManager ≤ YearsAtCompany and YearsInCurrentRole ≤ TotalWorkingYears |
| `Validation.ViolationsLength` | app.py:74-79 | the report has one message per broken rule, so its length is the number of broken rules and at most 3 |
| `Validation.ViolationsReportBrokenRules` | app.py:74-79 | each of the three messages is in the report if and only if its own rule is broken, independently of the other two |
| `Validation.ViolationsOrderedAndDistinct` | app.py:74-79 | the report is an ordered subsequence of [company/total, manager/company, role/total] and no message appears twice |
| `Validation.CompanyViolationComesFirst` | app.py:74-75 | when YearsAtCompany > TotalWorkingYears the first message is "❌ Years at Company cannot exceed Total Working Years." |
| `Validation.ValidationMessagesDistinct` | app.py:75-79 | the three validation messages are pairwise different |
| `Validation.InitialRecordIsConsistent` | app.py:39-46 | the untouched form passes validation |
| `Validation.AllThreeViolationsReported` | app.py:72-80 | a record within every widget range can break all three rules, and then all three messages are reported in check order |
| `Decision.LabelMapping` | app.py:105-108 | class 1 maps to Leave and every other output to Stay; on {0,1} the mapping is inverted by `ClassOf` |
| `Decision.DeriveRiskFlags` | app.py:111-117 | the appending risk block returns exactly `RiskFlags(r)`, at most three messages |
| `Decision.RiskMessagesDistinct` | app.py:113-117 | the three risk messages are pairwise different |
| `Decision.RiskFlagsReportFiredRules` | app.py:111-117 | the overtime indicator appears iff OverTime = 1, the satisfaction indicator iff JobSatisfaction ≤ 2, the work-life indicator iff WorkLifeBalance ≤ 2 |
| `Decision.RiskFlagsOrderedAndDistinct` | app.py:111-117 | the indicators are an ordered subsequence of [overtime, low satisfaction, poor work-life balance], without repeats, at most three |
| `Decision.RiskFlagsEmptyIff` | app.py:111-119 | no indicator is shown if and only if OverTime ≠ 1, JobSatisfaction ≥ 3 and WorkLifeBalance ≥ 3 |
| `Decision.RiskFlagsReadThreeFields` | app.py:111-117 | two records that agree on OverTime, JobSatisfaction and WorkLifeBalance get the same indicators |
| `Decision.BlockedIffInconsistent` | app.py:82-92 | a cycle is blocked if and only if a consistency rule is broken, and a blocked cycle lists every violation |
| `Decision.ClassifierGated` | app.py:89-95 | for an inconsistent record, or before the button is pressed, no verdict and no indicator is produced, and the outcome is the same for every classifier |
| `Decision.ShownVerdict` | app.py:93-117 | a consistent record with the button pressed is always scored; the verdict is Leave iff the classifier returns 1; the indicators are `RiskFlags(r)` whatever the classifier returns |
| `Decision.ScenarioTenureExceedsCareer` | app.py:72-92 | YearsAtCompany 12 over TotalWorkingYears 10 blocks the cycle with the single tenure message |
| `Decision.ScenarioStayNoRisk` | app.py:93-119 | a consistent record with no overtime and satisfaction scores 4, scored 0, shows Stay with no indicators |
| `Decision.ScenarioOvertimeLowSatisfaction` | app.py:111-117 | the same record with overtime and JobSatisfaction 1 shows the overtime and the satisfaction indicators, in that order |

## Left out

- Widget rendering, page setup, title, sidebar, subheaders, the error and
  success banners (their text and styling), the echo of the entered data and the footer:
  presentation only. `InDomain` records what the widgets allow; the model
  does not re-derive it from widget code.
- Loading the pickled pipeline and building the pandas DataFrame: file I/O
  and foreign libraries. The record is a datatype and the classifier a
  function parameter.
- The classifier's internals, and `predict_proba`: the probability is a
  float that is computed and then never used (its display is commented out).
- `RunCycle` takes the classifier as any `EmployeeRecord -> int` rather than
  one restricted to {0, 1}, because the source maps every output other than 1
  to "stay"; `LabelMapping` states the mapping for all integers.
- A failing classifier or a failed model load: the source has no handling
  for either (the exception ends the script run), so no error outcome is
  modelled.
