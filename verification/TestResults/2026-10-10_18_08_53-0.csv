TestResult.DisplayName,TestResult.Outcome,TestResult.Duration,TestResult.ResourceCount,RandomSeed
CoordinateProofs.SpellMarkers (correctness),Passed,00:00:00.4646128,190318,0
CoordinateProofs.SpellMarkers (well-formedness),Passed,00:00:00.4591933,40278,0
