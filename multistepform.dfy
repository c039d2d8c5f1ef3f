/** The wizard: a fixed list of steps, a current step, the form data
    collected so far and the error recorded for a step whose validation
    failed. */
module MultiStepForm {
  import opened Seqs
  import opened Values

  type FormData = map<string, Value>

  /** A step: its key, its heading and an optional validation of the whole
      form data (a missing validation accepts everything). */
  datatype Step = Step(id: string, title: string, validation: Option<FormData -> bool>)

  /** The only error message the wizard records. */
  const RequiredMessage: string := "Please complete all required fields"

  /** `validateCurrentStep`. */
  predicate Validates(step: Step, data: FormData)
  {
    step.validation.None? || step.validation.value(data)
  }

  /** `{ ...prev, ...newData }`: the new fields win, the others stay. */
  function Merge(prev: FormData, newData: FormData): (r: FormData)
    ensures r.Keys == prev.Keys + newData.Keys
    ensures forall k :: k in newData ==> r[k] == newData[k]
    ensures forall k :: k in prev && k !in newData ==> r[k] == prev[k]
  {
    prev + newData
  }

  /** Merging the same fields twice is merging them once. */
  lemma MergeIdempotent(prev: FormData, newData: FormData)
    ensures Merge(Merge(prev, newData), newData) == Merge(prev, newData)
  {
    var a := Merge(Merge(prev, newData), newData);
    var b := Merge(prev, newData);
    assert a.Keys == b.Keys;
    forall k | k in a
      ensures a[k] == b[k]
    {
    }
  }

  /** The width of the progress bar, `((currentStep + 1) / steps.length) * 100`. */
  function ProgressPercentage(currentStep: nat, stepCount: nat): (r: real)
    requires currentStep < stepCount
    ensures 0.0 < r <= 100.0
    ensures r == 100.0 <==> currentStep == stepCount - 1
  {
    ((currentStep + 1) as real / stepCount as real) * 100.0
  }

  /** One step further makes the bar strictly longer. */
  lemma ProgressIncreases(currentStep: nat, stepCount: nat)
    requires currentStep + 1 < stepCount
    ensures ProgressPercentage(currentStep, stepCount) < ProgressPercentage(currentStep + 1, stepCount)
  {
  }

  /** The id a step's error is recorded under. */
  function StepKey(s: Step): string
  {
    s.id
  }

  class Wizard {
    const steps: seq<Step>
    var currentStep: nat
    var formData: FormData
    var errors: map<string, string>

    /** There is a step, the current one exists, and the errors are either
        none or the one message for a step already reached. */
    predicate Valid()
      reads this
    {
      |steps| > 0 && currentStep < |steps| &&
      (errors == map[] || exists j :: 0 <= j <= currentStep && errors == map[steps[j].id := RequiredMessage])
    }

    function IsFirst(): bool
      reads this
    {
      currentStep == 0
    }

    function IsLast(): bool
      reads this
    {
      currentStep == |steps| - 1
    }

    /** The heading shown for the current step. */
    function Title(): string
      requires Valid()
      reads this
    {
      steps[currentStep].title
    }

    /** `errors[currentStepData.id] &&`: the error box is shown. */
    function ErrorShown(): bool
      requires Valid()
      reads this
    {
      steps[currentStep].id in errors && errors[steps[currentStep].id] != ""
    }

    /** Step indicator `index` is highlighted. */
    function IndicatorActive(index: nat): bool
      reads this
    {
      index <= currentStep
    }

    /** The Previous button is rendered, on every step but the first. */
    function PreviousVisible(): (r: bool)
      reads this
      ensures r <==> currentStep > 0
    {
      !IsFirst()
    }

    /** The caption of the forward button: "Submit" on the last step and
        "Next" on every other. */
    function NextLabel(): (r: string)
      reads this
      ensures r == "Submit" <==> IsLast()
      ensures r == "Next" <==> !IsLast()
    {
      if IsLast() then "Submit" else "Next"
    }

    /** The indicators lit are those of the steps reached; all of them are
        lit exactly when the progress bar is full and the button reads
        "Submit". */
    lemma IndicatorsFollowProgress()
      requires Valid()
      ensures forall i :: 0 <= i < |steps| ==> (IndicatorActive(i) <==> i <= currentStep)
      ensures (forall i :: 0 <= i < |steps| ==> IndicatorActive(i)) <==> ProgressPercentage(currentStep, |steps|) == 100.0
      ensures (forall i :: 0 <= i < |steps| ==> IndicatorActive(i)) <==> NextLabel() == "Submit"
    {
      if forall i :: 0 <= i < |steps| ==> IndicatorActive(i) {
        assert IndicatorActive(|steps| - 1);
      }
    }

    /** Starts at the first step with the initial data and no errors; an
        empty step list cannot be rendered. */
    constructor (steps: seq<Step>, initialData: FormData)
      requires |steps| > 0
      ensures Valid()
      ensures this.steps == steps && currentStep == 0 && formData == initialData && errors == map[]
    {
      this.steps := steps;
      currentStep := 0;
      formData := initialData;
      errors := map[];
    }

    /** `updateFormData`, the step components' `onChange`. */
    method UpdateFormData(newData: FormData)
      requires Valid()
      modifies this`formData
      ensures Valid()
      ensures formData == Merge(old(formData), newData)
    {
      formData := Merge(formData, newData);
    }

    /** `handleNext`: on a passing step the last one submits the data and the
        others advance, leaving the errors alone; a failing step records the
        message under its id and replaces every other error. */
    method HandleNext() returns (submitted: Option<FormData>)
      requires Valid()
      modifies this`currentStep, this`errors
      ensures Valid()
      ensures var ok := Validates(steps[old(currentStep)], formData);
              (ok && old(IsLast()) ==> submitted == Some(formData) && currentStep == old(currentStep) && errors == old(errors))
              && (ok && !old(IsLast()) ==> submitted == None && currentStep == old(currentStep) + 1 && errors == old(errors))
              && (!ok ==> submitted == None && currentStep == old(currentStep)
                          && errors == map[steps[currentStep].id := RequiredMessage])
    {
      submitted := None;
      if Validates(steps[currentStep], formData) {
        if IsLast() {
          submitted := Some(formData);
        } else {
          if errors != map[] {
            var j :| 0 <= j <= currentStep && errors == map[steps[j].id := RequiredMessage];
            currentStep := currentStep + 1;
            assert 0 <= j <= currentStep && errors == map[steps[j].id := RequiredMessage];
          } else {
            currentStep := currentStep + 1;
          }
        }
      } else {
        errors := map[steps[currentStep].id := RequiredMessage];
        assert errors == map[steps[currentStep].id := RequiredMessage];
      }
    }

    /** `handlePrevious`: away from the first step, go back one and clear
        every error; on the first step nothing happens. */
    method HandlePrevious()
      requires Valid()
      modifies this`currentStep, this`errors
      ensures Valid()
      ensures old(IsFirst()) ==> currentStep == old(currentStep) && errors == old(errors)
      ensures !old(IsFirst()) ==> currentStep == old(currentStep) - 1 && errors == map[]
    {
      if !IsFirst() {
        currentStep := currentStep - 1;
        errors := map[];
      }
    }

    /** With distinct step ids, the error box shows exactly when the error
        recorded is the current step's own: another step's error left behind
        by moving on never shows. */
    lemma ErrorShownIsOwnError()
      requires Valid() && DistinctKeys(steps, StepKey)
      ensures ErrorShown() <==> errors == map[steps[currentStep].id := RequiredMessage]
    {
      if errors != map[] {
        var j :| 0 <= j <= currentStep && errors == map[steps[j].id := RequiredMessage];
        assert steps[j].id in errors;
        if j != currentStep {
          assert steps[j].id != steps[currentStep].id;
        }
      }
    }
  }

  /** A failing step shows its error; fixing the data and pressing Next
      again advances. */
  method FailThenFix(w: Wizard, fix: FormData)
    requires w.Valid() && DistinctKeys(w.steps, StepKey) && !w.IsLast()
    requires !Validates(w.steps[w.currentStep], w.formData)
    requires Validates(w.steps[w.currentStep], Merge(w.formData, fix))
    modifies w
    ensures w.Valid() && w.currentStep == old(w.currentStep) + 1
  {
    var s := w.HandleNext();
    w.ErrorShownIsOwnError();
    assert w.ErrorShown();
    w.UpdateFormData(fix);
    s := w.HandleNext();
  }
}
