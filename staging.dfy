/** The per-image step both pipelines share: label a copy of each extracted
    image with `IMG_{i+1}_{idx+1}`, keep it for the composite, save it as
    `temp_image_{i+1}_{idx+1}.png` and upload it. */
module Staging {
  import opened Bitmaps
  import opened Raster
  import opened Identifiers
  import opened Labeling
  import opened Chat

  /** The labeled copies of a slide's pictures, in order. */
  function LabeledImages(i: nat, pictures: seq<Bitmap>, addLabels: bool, kit: Toolkit): (ls: seq<Bitmap>)
    ensures |ls| == |pictures|
    ensures forall k | 0 <= k < |pictures| :: ls[k] == Labeled(pictures[k], ImageId(i, k), addLabels, kit)
  {
    seq(|pictures|, k requires 0 <= k < |pictures| => Labeled(pictures[k], ImageId(i, k), addLabels, kit))
  }

  /** The uploads of a slide's labeled images, each under its temporary name. */
  function ImageUploads(i: nat, labeled: seq<Bitmap>): (us: seq<Upload>)
    ensures |us| == |labeled|
    ensures forall k | 0 <= k < |labeled| :: us[k] == Upload(ImagePath(i, k), labeled[k])
  {
    seq(|labeled|, k requires 0 <= k < |labeled| => Upload(ImagePath(i, k), labeled[k]))
  }

  lemma ImageUploadsSnoc(i: nat, labeled: seq<Bitmap>, b: Bitmap)
    ensures ImageUploads(i, labeled + [b]) == ImageUploads(i, labeled) + [Upload(ImagePath(i, |labeled|), b)]
  {
  }

  /** `add_id_to_image(img.copy(), id_text)`: the label goes on a fresh copy,
      and the caller's image keeps its pixels. */
  method LabelCopy(img: Image, idText: string, addLabels: bool, kit: Toolkit) returns (labeled: Image)
    ensures fresh(labeled.pixels)
    ensures labeled.Content() == Labeled(img.Content(), idText, addLabels, kit)
    ensures img.Content() == old(img.Content())
  {
    var copy := img.Copy();
    labeled := AddIdToImage(copy, idText, addLabels, kit);
  }

  /** The `if combined_images: for idx, img in enumerate(...)` loop: the labeled
      copies in order (`processed_imgs`) and their uploads in order (`ai_files`).
      It changes no existing object, so the extracted images are untouched. */
  method LabelAndUploadImages(i: nat, images: seq<Image>, addLabels: bool, kit: Toolkit)
    returns (processed: seq<Image>, files: seq<Upload>)
    ensures Contents(processed) == LabeledImages(i, Contents(images), addLabels, kit)
    ensures files == ImageUploads(i, Contents(processed))
  {
    processed := [];
    files := [];
    if |images| > 0 {
      for idx := 0 to |images|
        invariant |processed| == idx
        invariant forall k | 0 <= k < idx :: processed[k].Content() == Labeled(images[k].Content(), ImageId(i, k), addLabels, kit)
        invariant files == ImageUploads(i, Contents(processed))
      {
        ghost var before := Contents(processed);
        var labeled := LabelCopy(images[idx], ImageId(i, idx), addLabels, kit);
        ImageUploadsSnoc(i, before, labeled.Content());
        processed := processed + [labeled];
        assert Contents(processed) == before + [labeled.Content()];
        files := files + [Upload(ImagePath(i, idx), labeled.Content())];
      }
    }
  }
}
