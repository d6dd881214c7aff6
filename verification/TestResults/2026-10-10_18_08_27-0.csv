TestResult.DisplayName,TestResult.Outcome,TestResult.Duration,TestResult.ResourceCount,RandomSeed
Chars.DigitsBelow (well-formedness),Passed,00:00:00.1960196,19631,0
Chars.DigitsBelow (correctness),Passed,00:00:00.1758118,89216,0
