/** The strength classification of latest/scr/components/SeasonalAnalysis.tsx:
    the label `getStrengthText` gives a month, and the four buckets of the
    `strengthDistribution` pie chart. */
module Seasonal {

  /** A month's name and historical strength in percent; tendencies, averages
      and descriptions are left out. */
  datatype Month = Month(name: string, strength: int)

  const SeasonalData: seq<Month> := [
    Month("January", 75), Month("February", 45), Month("March", 68),
    Month("April", 82), Month("May", 62), Month("June", 38),
    Month("July", 71), Month("August", 55), Month("September", 78),
    Month("October", 65), Month("November", 73), Month("December", 69)]

  datatype StrengthLabel = VeryStrong | Strong | Moderate | Weak

  /** `getStrengthText(strength)`, thresholds 75, 60 and 40. */
  function StrengthText(strength: int): (l: StrengthLabel)
    ensures l == VeryStrong <==> strength >= 75
    ensures l == Strong <==> 60 <= strength < 75
    ensures l == Moderate <==> 40 <= strength < 60
    ensures l == Weak <==> strength < 40
  {
    if strength >= 75 then VeryStrong
    else if strength >= 60 then Strong
    else if strength >= 40 then Moderate
    else Weak
  }

  /** The text shown for a label. */
  function LabelText(l: StrengthLabel): string {
    match l
    case VeryStrong => "Very Strong"
    case Strong => "Strong"
    case Moderate => "Moderate"
    case Weak => "Weak"
  }

  lemma LabelTextInjective(a: StrengthLabel, b: StrengthLabel)
    requires LabelText(a) == LabelText(b)
    ensures a == b
  {
  }

  /** The order of the labels, weakest first. */
  function LabelRank(l: StrengthLabel): nat {
    match l
    case Weak => 0
    case Moderate => 1
    case Strong => 2
    case VeryStrong => 3
  }

  /** A stronger month never gets a weaker label. */
  lemma StrengthTextMonotone(a: int, b: int)
    requires a <= b
    ensures LabelRank(StrengthText(a)) <= LabelRank(StrengthText(b))
  {
  }

  /** The four `filter` predicates of `strengthDistribution`, in chart order. */
  datatype Bucket = VeryStrongBucket | StrongBucket | ModerateBucket | WeakBucket

  predicate InBucket(b: Bucket, strength: int) {
    match b
    case VeryStrongBucket => strength >= 75
    case StrongBucket => strength >= 60 && strength < 75
    case ModerateBucket => strength >= 40 && strength < 60
    case WeakBucket => strength < 40
  }

  /** The label that names a bucket in its chart caption. */
  function BucketLabel(b: Bucket): StrengthLabel {
    match b
    case VeryStrongBucket => VeryStrong
    case StrongBucket => Strong
    case ModerateBucket => Moderate
    case WeakBucket => Weak
  }

  /** A bucket holds exactly the months whose label is the bucket's label. */
  lemma BucketMatchesLabel(b: Bucket, strength: int)
    ensures InBucket(b, strength) <==> StrengthText(strength) == BucketLabel(b)
  {
  }

  /** Every strength falls into exactly one bucket. */
  lemma BucketsPartition(strength: int)
    ensures exists b :: InBucket(b, strength)
    ensures forall b, c :: InBucket(b, strength) && InBucket(c, strength) ==> b == c
  {
    var l := StrengthText(strength);
    var b := match l
      case VeryStrong => VeryStrongBucket
      case Strong => StrongBucket
      case Moderate => ModerateBucket
      case Weak => WeakBucket;
    assert InBucket(b, strength);
  }

  /** `seasonalData.filter(...).length` for one bucket, over the first `k`
      months. */
  function BucketCount(months: seq<Month>, b: Bucket, k: nat): (n: nat)
    requires k <= |months|
    ensures n <= k
  {
    if k == 0 then 0
    else BucketCount(months, b, k - 1) + (if InBucket(b, months[k - 1].strength) then 1 else 0)
  }

  /** The four counts of the chart add up to the number of months. */
  lemma {:induction false} CountsSumToMonths(months: seq<Month>, k: nat)
    requires k <= |months|
    ensures BucketCount(months, VeryStrongBucket, k) + BucketCount(months, StrongBucket, k)
          + BucketCount(months, ModerateBucket, k) + BucketCount(months, WeakBucket, k) == k
  {
    if k > 0 {
      CountsSumToMonths(months, k - 1);
    }
  }

  /** The number of months, among the first `k`, with a given label. */
  function LabelCount(months: seq<Month>, l: StrengthLabel, k: nat): (n: nat)
    requires k <= |months|
    ensures n <= k
  {
    if k == 0 then 0
    else LabelCount(months, l, k - 1) + (if StrengthText(months[k - 1].strength) == l then 1 else 0)
  }

  /** The count of a bucket is the number of months with the bucket's label. */
  lemma {:induction false} BucketCountIsLabelCount(months: seq<Month>, b: Bucket, k: nat)
    requires k <= |months|
    ensures BucketCount(months, b, k) == LabelCount(months, BucketLabel(b), k)
  {
    if k > 0 {
      BucketCountIsLabelCount(months, b, k - 1);
      BucketMatchesLabel(b, months[k - 1].strength);
    }
  }

  /** The chart of the twelve months: three very strong, six strong, two
      moderate and one weak. */
  lemma Distribution()
    ensures BucketCount(SeasonalData, VeryStrongBucket, 12) == 3
    ensures BucketCount(SeasonalData, StrongBucket, 12) == 6
    ensures BucketCount(SeasonalData, ModerateBucket, 12) == 2
    ensures BucketCount(SeasonalData, WeakBucket, 12) == 1
  {
    assert BucketCount(SeasonalData, VeryStrongBucket, 3) == 1;
    assert BucketCount(SeasonalData, VeryStrongBucket, 6) == 2;
    assert BucketCount(SeasonalData, VeryStrongBucket, 9) == 3;
    assert BucketCount(SeasonalData, StrongBucket, 3) == 1;
    assert BucketCount(SeasonalData, StrongBucket, 6) == 2;
    assert BucketCount(SeasonalData, StrongBucket, 9) == 3;
    assert BucketCount(SeasonalData, ModerateBucket, 3) == 1;
    assert BucketCount(SeasonalData, ModerateBucket, 6) == 1;
    assert BucketCount(SeasonalData, ModerateBucket, 9) == 2;
    assert BucketCount(SeasonalData, WeakBucket, 3) == 0;
    assert BucketCount(SeasonalData, WeakBucket, 6) == 1;
    assert BucketCount(SeasonalData, WeakBucket, 9) == 1;
  }
}
