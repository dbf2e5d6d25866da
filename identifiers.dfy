/** The identifiers burnt into images and the temporary file names the images
    are saved under before upload. `i` is the 0-based slide index and `idx`
    the 0-based ordinal of an image on its slide; identifiers are 1-based. */
module Identifiers {
  import opened Results
  import opened PyText

  /** `f"{a}_{b}"`. */
  function Pair(a: nat, b: nat): string {
    Decimal(a) + "_" + Decimal(b)
  }

  /** Reads `"<digits>_<digits>"` back into its two numbers. */
  function ParsePair(s: string): Option<(nat, nat)> {
    match IndexOf(s, '_')
    case None => None
    case Some(j) =>
      match (ParseDecimal(s[..j]), ParseDecimal(s[j + 1..]))
      case (Some(a), Some(b)) => Some((a, b))
      case _ => None
  }

  lemma PairRoundTrip(a: nat, b: nat)
    ensures ParsePair(Pair(a, b)) == Some((a, b))
  {
    var s := Pair(a, b);
    var da := Decimal(a);
    assert s[|da|] == '_';
    assert forall k | 0 <= k < |da| :: s[k] == da[k] && IsDigit(s[k]);
    assert IndexOf(s, '_') == Some(|da|);
    assert s[..|da|] == da;
    assert s[|da| + 1..] == Decimal(b);
    DecimalRoundTrip(a);
    DecimalRoundTrip(b);
  }

  /** `f"IMG_{i+1}_{idx+1}"`. */
  function ImageId(i: nat, idx: nat): string {
    "IMG_" + Pair(i + 1, idx + 1)
  }

  /** `f"snapshot_{i+idx+1}"`, where the source's `idx` comes from enumerating a
      one-element list and so is always 0. */
  function SnapshotId(i: nat, idx: nat): string {
    "snapshot_" + Decimal(i + idx + 1)
  }

  /** `f"temp_image_{i+1}_{idx+1}.png"`. */
  function ImagePath(i: nat, idx: nat): string {
    "temp_image_" + Pair(i + 1, idx + 1) + ".png"
  }

  /** `f"{snapshot_id}.png"`. */
  function SnapshotPath(snapshotId: string): string {
    snapshotId + ".png"
  }

  /** `f"combined_image_{i}.png"`: this one name uses the 0-based index. */
  function CompositePath(i: nat): string {
    "combined_image_" + Decimal(i) + ".png"
  }

  /** Recovers `(i, idx)` from an image identifier. */
  function ParseImageId(s: string): Option<(nat, nat)> {
    if |s| >= 4 && s[..4] == "IMG_" then
      match ParsePair(s[4..])
      case Some((a, b)) => if a >= 1 && b >= 1 then Some((a - 1, b - 1)) else None
      case None => None
    else None
  }

  /** Recovers the slide index `i` from a snapshot identifier. */
  function ParseSnapshotId(s: string): Option<nat> {
    if |s| >= 9 && s[..9] == "snapshot_" then
      match ParseDecimal(s[9..])
      case Some(a) => if a >= 1 then Some(a - 1) else None
      case None => None
    else None
  }

  /** An image identifier is derived from `(i, idx)` alone and gives them back. */
  lemma ImageIdRoundTrip(i: nat, idx: nat)
    ensures ParseImageId(ImageId(i, idx)) == Some((i, idx))
  {
    var s := ImageId(i, idx);
    assert s[..4] == "IMG_";
    assert s[4..] == Pair(i + 1, idx + 1);
    PairRoundTrip(i + 1, idx + 1);
  }

  /** The snapshot identifier of slide `i` is `snapshot_{i+1}` and gives `i` back. */
  lemma SnapshotIdRoundTrip(i: nat)
    ensures SnapshotId(i, 0) == "snapshot_" + Decimal(i + 1)
    ensures ParseSnapshotId(SnapshotId(i, 0)) == Some(i)
  {
    var s := SnapshotId(i, 0);
    assert s[..9] == "snapshot_";
    assert s[9..] == Decimal(i + 1);
    DecimalRoundTrip(i + 1);
  }

  /** Identifiers are pairwise distinct within a slide and across slides:
      different `(i, idx)` give different image identifiers, different slides
      give different snapshot identifiers, and no image identifier is a
      snapshot identifier. */
  lemma IdentifiersDistinct(i: nat, idx: nat, j: nat, jdx: nat)
    ensures ImageId(i, idx) == ImageId(j, jdx) ==> i == j && idx == jdx
    ensures SnapshotId(i, 0) == SnapshotId(j, 0) ==> i == j
    ensures ImageId(i, idx) != SnapshotId(j, 0)
  {
    ImageIdRoundTrip(i, idx);
    ImageIdRoundTrip(j, jdx);
    SnapshotIdRoundTrip(i);
    SnapshotIdRoundTrip(j);
    assert ImageId(i, idx)[0] == 'I';
    assert SnapshotId(j, 0)[0] == 's';
  }

  /** `pre + mid + post` holds `mid` right after `pre`. */
  lemma MiddleOf(pre: string, mid: string, post: string)
    ensures var s := pre + mid + post; s[|pre|..|s| - |post|] == mid
  {
    var s := pre + mid + post;
    assert |s| - |post| == |pre| + |mid|;
    forall n | 0 <= n < |mid| ensures s[|pre|..|s| - |post|][n] == mid[n] {
    }
  }

  /** Different `(i, idx)` give different image files. */
  lemma ImagePathInjective(i: nat, idx: nat, j: nat, jdx: nat)
    requires ImagePath(i, idx) == ImagePath(j, jdx)
    ensures i == j && idx == jdx
  {
    MiddleOf("temp_image_", Pair(i + 1, idx + 1), ".png");
    MiddleOf("temp_image_", Pair(j + 1, jdx + 1), ".png");
    PairRoundTrip(i + 1, idx + 1);
    PairRoundTrip(j + 1, jdx + 1);
  }

  /** Different slides give different snapshot files. */
  lemma SnapshotPathInjective(i: nat, j: nat)
    requires SnapshotPath(SnapshotId(i, 0)) == SnapshotPath(SnapshotId(j, 0))
    ensures i == j
  {
    MiddleOf("snapshot_", Decimal(i + 1), ".png");
    MiddleOf("snapshot_", Decimal(j + 1), ".png");
    DecimalInjective(i + 1, j + 1);
  }

  /** Different slides give different composite files. */
  lemma CompositePathInjective(k: nat, l: nat)
    requires CompositePath(k) == CompositePath(l)
    ensures k == l
  {
    MiddleOf("combined_image_", Decimal(k), ".png");
    MiddleOf("combined_image_", Decimal(l), ".png");
    DecimalInjective(k, l);
  }

  /** The temporary files of one run never collide: image files differ for
      different `(i, idx)`, snapshot files for different slides, composite
      files for different slides, and image, snapshot and composite files
      have different prefixes. */
  lemma TempPathsDistinct(i: nat, idx: nat, j: nat, jdx: nat, k: nat, l: nat)
    ensures ImagePath(i, idx) == ImagePath(j, jdx) ==> i == j && idx == jdx
    ensures SnapshotPath(SnapshotId(i, 0)) == SnapshotPath(SnapshotId(j, 0)) ==> i == j
    ensures CompositePath(k) == CompositePath(l) ==> k == l
    ensures ImagePath(i, idx) != SnapshotPath(SnapshotId(j, 0))
    ensures ImagePath(i, idx) != CompositePath(k)
    ensures SnapshotPath(SnapshotId(j, 0)) != CompositePath(k)
  {
    if ImagePath(i, idx) == ImagePath(j, jdx) {
      ImagePathInjective(i, idx, j, jdx);
    }
    if SnapshotPath(SnapshotId(i, 0)) == SnapshotPath(SnapshotId(j, 0)) {
      SnapshotPathInjective(i, j);
    }
    if CompositePath(k) == CompositePath(l) {
      CompositePathInjective(k, l);
    }
    assert ImagePath(i, idx)[0] == 't';
    assert SnapshotPath(SnapshotId(j, 0))[0] == 's';
    assert CompositePath(k)[0] == 'c';
  }
}
