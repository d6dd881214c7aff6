TestResult.DisplayName,TestResult.Outcome,TestResult.Duration,TestResult.ResourceCount,RandomSeed
CoordinateProofs.SpellMarkers (correctness),Passed,00:00:00.3263321,199418,3
CoordinateProofs.SpellMarkers (well-formedness),Passed,00:00:00.3052791,40189,3
