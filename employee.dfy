/** The employee record collected by the dashboard's sidebar form. */
module Employee {

  /** One employee's eleven features, in the column order the classifier
      expects. Every field is an integer; MaritalStatus codes Single as 0,
      Married as 1 and Divorced as 2, and OverTime codes No as 0 and Yes as 1. */
  datatype EmployeeRecord = EmployeeRecord(
    overTime: int,
    totalWorkingYears: int,
    jobLevel: int,
    yearsAtCompany: int,
    monthlyIncome: int,
    age: int,
    maritalStatus: int,
    yearsWithCurrManager: int,
    yearsInCurrentRole: int,
    jobSatisfaction: int,
    workLifeBalance: int)

  /** The values the form's widgets can produce, field by field. The
      monthly-income slider runs from 1000 to 50000 in steps of 500. */
  predicate InDomain(r: EmployeeRecord) {
    r.overTime in {0, 1} &&
    0 <= r.totalWorkingYears <= 50 &&
    1 <= r.jobLevel <= 5 &&
    0 <= r.yearsAtCompany <= 40 &&
    1000 <= r.monthlyIncome <= 50000 && (r.monthlyIncome - 1000) % 500 == 0 &&
    18 <= r.age <= 65 &&
    r.maritalStatus in {0, 1, 2} &&
    0 <= r.yearsWithCurrManager <= 20 &&
    0 <= r.yearsInCurrentRole <= 20 &&
    1 <= r.jobSatisfaction <= 4 &&
    1 <= r.workLifeBalance <= 4
  }

  /** The record the form shows before the operator touches it: the sliders'
      stated defaults, and the first option of every radio and select box. */
  function InitialRecord(): (r: EmployeeRecord)
    ensures InDomain(r)
  {
    EmployeeRecord(
      overTime := 0,
      totalWorkingYears := 5,
      jobLevel := 1,
      yearsAtCompany := 3,
      monthlyIncome := 5000,
      age := 30,
      maritalStatus := 0,
      yearsWithCurrManager := 2,
      yearsInCurrentRole := 2,
      jobSatisfaction := 1,
      workLifeBalance := 1)
  }
}
