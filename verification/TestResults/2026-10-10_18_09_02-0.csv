TestResult.DisplayName,TestResult.Outcome,TestResult.Duration,TestResult.ResourceCount,RandomSeed
CoordinateProofs.SpellMarkers (correctness),Passed,00:00:00.3593932,200982,2
CoordinateProofs.SpellMarkers (well-formedness),Passed,00:00:00.3105374,40272,2
