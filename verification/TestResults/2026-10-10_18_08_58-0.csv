TestResult.DisplayName,TestResult.Outcome,TestResult.Duration,TestResult.ResourceCount,RandomSeed
CoordinateProofs.SpellMarkers (correctness),Passed,00:00:00.3367385,190358,1
CoordinateProofs.SpellMarkers (well-formedness),Passed,00:00:00.3005358,40293,1
