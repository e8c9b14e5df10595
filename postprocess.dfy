/** After convergence: the line class is turned into a black and white
    image, and the big blobs found by a morphological opening of that image
    are removed from it. */
module PostProcess {
  import opened Pixels
  import opened Centroids

  /** Lines 226-229: white for the line class, black for every other. */
  function BinarizedLevel(c: byte): (v: byte)
    ensures v == 0 || v == 255
    ensures v == 255 <==> c as int == LineClass
  {
    if c as int == LineClass then 255 else 0
  }

  /** Lines 224-231: the binarised image of the label grid. */
  method Binarize(labels: array2<byte>, bin: array2<byte>)
    requires labels != bin
    requires bin.Length0 == labels.Length0 && bin.Length1 == labels.Length1
    modifies bin
    ensures forall i, j :: 0 <= i < bin.Length0 && 0 <= j < bin.Length1 ==>
      bin[i, j] == BinarizedLevel(labels[i, j])
  {
    var i := 0;
    while i < labels.Length0
      invariant 0 <= i <= labels.Length0
      invariant forall i', j' :: 0 <= i' < i && 0 <= j' < labels.Length1 ==>
        bin[i', j'] == BinarizedLevel(labels[i', j'])
    {
      var j := 0;
      while j < labels.Length1
        invariant 0 <= j <= labels.Length1
        invariant forall i', j' :: 0 <= i' < i && 0 <= j' < labels.Length1 ==>
          bin[i', j'] == BinarizedLevel(labels[i', j'])
        invariant forall j' :: 0 <= j' < j ==> bin[i, j'] == BinarizedLevel(labels[i, j'])
      {
        if labels[i, j] as int == LineClass {
          bin[i, j] := 255;
        } else {
          bin[i, j] := 0;
        }
        j := j + 1;
      }
      i := i + 1;
    }
  }

  /** Line 248-249 on one pixel: a pixel white in both the binarised image
      and its opening is cleared; every other pixel keeps its value. */
  function Subtracted(b: byte, o: byte): (v: byte)
    ensures v == 0 || v == b
    ensures v != b <==> b == 255 && o == 255
  {
    if b == 255 && o == 255 then 0 else b
  }

  /** Removing the blobs a second time removes nothing more. */
  lemma SubtractedIdempotent(b: byte, o: byte)
    ensures Subtracted(Subtracted(b, o), o) == Subtracted(b, o)
  {
  }

  /** After both steps a pixel is white exactly when it belongs to the line
      class and is not part of a blob of the opening. */
  lemma LinePixelsKept(c: byte, o: byte)
    ensures Subtracted(BinarizedLevel(c), o) == 255 <==> c as int == LineClass && o != 255
    ensures Subtracted(BinarizedLevel(c), o) == 0 || Subtracted(BinarizedLevel(c), o) == 255
  {
  }

  /** Lines 246-251: subtract the opening from the binarised image, in place. */
  method SubtractBlobs(bin: array2<byte>, opening: array2<byte>)
    requires bin != opening
    requires opening.Length0 == bin.Length0 && opening.Length1 == bin.Length1
    modifies bin
    ensures forall i, j :: 0 <= i < bin.Length0 && 0 <= j < bin.Length1 ==>
      bin[i, j] == Subtracted(old(bin[i, j]), opening[i, j])
  {
    var i := 0;
    while i < bin.Length0
      invariant 0 <= i <= bin.Length0
      invariant forall i', j' :: 0 <= i' < i && 0 <= j' < bin.Length1 ==>
        bin[i', j'] == Subtracted(old(bin[i', j']), opening[i', j'])
      invariant forall i', j' :: i <= i' < bin.Length0 && 0 <= j' < bin.Length1 ==>
        bin[i', j'] == old(bin[i', j'])
    {
      var j := 0;
      while j < bin.Length1
        invariant 0 <= j <= bin.Length1
        invariant forall i', j' :: 0 <= i' < i && 0 <= j' < bin.Length1 ==>
          bin[i', j'] == Subtracted(old(bin[i', j']), opening[i', j'])
        invariant forall j' :: 0 <= j' < j ==> bin[i, j'] == Subtracted(old(bin[i, j']), opening[i, j'])
        invariant forall i', j' :: i <= i' < bin.Length0 && 0 <= j' < bin.Length1 && (i' > i || j' >= j) ==>
          bin[i', j'] == old(bin[i', j'])
      {
        if bin[i, j] == 255 && opening[i, j] == 255 {
          bin[i, j] := 0;
        }
        j := j + 1;
      }
      i := i + 1;
    }
  }
}
