/**
 * `compute_storage_requirements`, identical in both TypeScript revisions
 * and the compiled JavaScript: one storage level per month, starting from the initial upload;
 * each month deletes, clamps at zero, then uploads.
 */
module StorageProjection {
  import opened Pricing

  /** One month of the projection: delete, clamp at 0, upload. */
  function Step(input: UserInput, level: real): real {
    Max(level - input.delete_mo, 0.0) + input.upload_mo
  }

  /** The levels of the first `k` months. */
  function Levels(input: UserInput, k: nat): (s: seq<real>)
    ensures |s| == k
  {
    if k == 0 then []
    else
      var prev := Levels(input, k - 1);
      prev + [Step(input, if k == 1 then input.initial_upload else prev[k - 2])]
  }

  /**
   * The first level follows from the initial upload, every later level from
   * the one before, and no level is below the monthly upload.
   */
  lemma {:induction false} LevelsShape(input: UserInput, k: nat)
    ensures k > 0 ==> Levels(input, k)[0] == Step(input, input.initial_upload)
    ensures forall j :: 0 < j < k ==> Levels(input, k)[j] == Step(input, Levels(input, k)[j - 1])
    ensures forall j :: 0 <= j < k ==> Levels(input, k)[j] >= input.upload_mo
  {
    if k > 0 {
      var prev := Levels(input, k - 1);
      var s := Levels(input, k);
      LevelsShape(input, k - 1);
      assert s == prev + [Step(input, if k == 1 then input.initial_upload else prev[k - 2])];
      assert forall j :: 0 <= j < k - 1 ==> s[j] == prev[j];
      assert s[k - 1] >= input.upload_mo;
    }
  }

  /** The projection loop: one level per month, by the step above. */
  method ComputeStorageRequirements(input: UserInput) returns (storage: seq<real>)
    ensures storage == Levels(input, input.months)
    ensures |storage| == input.months
    ensures input.months > 0 ==> storage[0] == Step(input, input.initial_upload)
    ensures forall j :: 0 < j < |storage| ==> storage[j] == Step(input, storage[j - 1])
    ensures input.upload_mo >= 0.0 ==> forall j :: 0 <= j < |storage| ==> storage[j] >= input.upload_mo >= 0.0
  {
    var current := input.initial_upload;
    storage := [];
    for i := 0 to input.months
      invariant storage == Levels(input, i)
      invariant current == if i == 0 then input.initial_upload else storage[i - 1]
    {
      current := current - input.delete_mo;
      current := Max(current, 0.0);
      current := current + input.upload_mo;
      storage := storage + [current];
    }
    LevelsShape(input, input.months);
  }
}
