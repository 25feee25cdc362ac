/**
  The `ImageGallery` component's pure helpers: whether a type is shown as an
  image, which icon a file gets, which unit its size is shown in, the
  extension label, and the confirmation gate in front of a delete.
 */
module ImageGallery {
  import opened Text
  import opened UploadTypes
  import FileKeys
  import FileValidation

  /** `isImage(mimetype)`: the type starts with `image/`, that is, it is `image/` followed by a subtype. */
  function IsImage(mimetype: string): (b: bool)
    ensures b <==> exists subtype :: mimetype == "image/" + subtype
  {
    ConcatStartsWith("image/");
    if StartsWith(mimetype, "image/") then
      assert mimetype == "image/" + mimetype[6..];
      true
    else false
  }

  datatype Icon = ImageIcon | PdfIcon | TextIcon

  /** `getFileIcon(mimetype)`: image types, then exactly `application/pdf`, then everything else. */
  function GetFileIcon(mimetype: string): (icon: Icon)
    ensures icon == ImageIcon <==> IsImage(mimetype)
    ensures icon == PdfIcon <==> mimetype == "application/pdf"
    ensures icon == TextIcon <==> !IsImage(mimetype) && mimetype != "application/pdf"
  {
    assert "application/pdf"[0] != "image/"[0];
    if StartsWith(mimetype, "image/") then ImageIcon
    else if mimetype == "application/pdf" then PdfIcon
    else TextIcon
  }

  /** Of the types the upload filter admits, the three image types get the image icon, PDF the file icon and plain text the text icon. */
  lemma AllowedTypesIcons()
    ensures forall m :: m in FileValidation.AllowedMimes ==> (GetFileIcon(m) == ImageIcon <==> m in ["image/jpeg", "image/png", "image/gif"])
    ensures GetFileIcon("application/pdf") == PdfIcon
    ensures GetFileIcon("text/plain") == TextIcon
  {
    assert IsImage("image/jpeg") && IsImage("image/png") && IsImage("image/gif");
    assert "text/plain"[0] != "image/"[0];
  }

  datatype SizeUnit = Bytes | Kilobytes | Megabytes

  /**
    `formatFileSize(bytes)`: the unit it shows the size in, and for sizes
    under 1024 the exact text `bytes + ' B'`. The rounded KB and MB figures
    are not modelled.
   */
  datatype SizeLabel = SizeLabel(unit: SizeUnit, exact: string)

  function FormatFileSize(bytes: nat): (shown: SizeLabel)
    ensures shown.unit == Bytes <==> bytes < 1024
    ensures shown.unit == Kilobytes <==> 1024 <= bytes < 1048576
    ensures shown.unit == Megabytes <==> 1048576 <= bytes
    ensures shown.unit == Bytes ==>
      && |shown.exact| >= 3
      && shown.exact[|shown.exact| - 2..] == " B"
      && AllDigits(shown.exact[..|shown.exact| - 2])
      && DecimalValue(shown.exact[..|shown.exact| - 2]) == bytes
      && (shown.exact[0] == '0' <==> bytes == 0)
      && (bytes == 0 ==> shown.exact == "0 B")
  {
    if bytes < 1024 then
      var text := Decimal(bytes) + " B";
      assert text[..|text| - 2] == Decimal(bytes);
      DecimalRoundTrip(bytes);
      SizeLabel(Bytes, text)
    else if bytes < 1048576 then SizeLabel(Kilobytes, "")
    else SizeLabel(Megabytes, "")
  }

  function UnitRank(u: SizeUnit): nat {
    match u
    case Bytes => 0
    case Kilobytes => 1
    case Megabytes => 2
  }

  /** A larger size is never shown in a smaller unit. */
  lemma UnitIsMonotone(a: nat, b: nat)
    requires a <= b
    ensures UnitRank(FormatFileSize(a).unit) <= UnitRank(FormatFileSize(b).unit)
  {
  }

  /** `filename.split('.').pop()?.toUpperCase()`: the label shown for a file that is not an image. */
  function ExtensionLabel(filename: string): (shown: string)
    ensures |shown| == |LastSegment(filename, '.')|
    ensures '.' !in shown
    ensures forall i :: 0 <= i < |shown| ==> !('a' <= shown[i] <= 'z')
  {
    LastSegmentShape(filename, '.');
    var ext := LastSegment(filename, '.');
    assert forall i :: 0 <= i < |ext| ==> ext[i] != '.' && UpperChar(ext[i]) != '.';
    Upper(ext)
  }

  /**
    The label is the upper-cased text after the last `.`, or the whole name
    upper-cased when there is no `.`; it never contains a `.` or a lower-case
    ASCII letter.
   */
  lemma ExtensionLabelShape(filename: string)
    ensures '.' !in ExtensionLabel(filename)
    ensures forall i :: 0 <= i < |ExtensionLabel(filename)| ==> !('a' <= ExtensionLabel(filename)[i] <= 'z')
    ensures '.' !in filename ==> ExtensionLabel(filename) == Upper(filename)
    ensures '.' in filename ==> exists front :: filename == front + "." + LastSegment(filename, '.')
  {
    LastSegmentShape(filename, '.');
    var ext := LastSegment(filename, '.');
    assert forall i :: 0 <= i < |ext| ==> ext[i] != '.' && UpperChar(ext[i]) != '.';
  }

  /** A name made of any front, a `.` and a `.`-free extension is labelled with that extension, upper-cased. */
  lemma ExtensionLabelOfSplit(front: string, ext: string)
    requires '.' !in ext
    ensures ExtensionLabel(front + "." + ext) == Upper(ext)
  {
    LastSegmentAfter(front, ext, '.');
  }

  /** The gallery labels a file with the same extension its storage key ends in. */
  lemma LabelMatchesKey(originalName: string, folder: string, timestamp: nat, token: string)
    ensures ExtensionLabel(originalName) == Upper(LastSegment(FileKeys.GenerateFileName(originalName, folder, timestamp, token), '.'))
  {
    FileKeys.KeyKeepsExtension(originalName, folder, timestamp, token);
  }

  /** What `handleDelete` ends in: declined, reloaded after a delete, or an alert after a failed one. */
  datatype DeleteFlow = Declined | Reloaded | Alerted

  /** The delete requests `handleDelete` sent, how it ended, and `isDeleting` afterwards. */
  datatype GalleryDelete = GalleryDelete(requests: seq<string>, flow: DeleteFlow, isDeleting: bool)

  /**
    `handleDelete(key)`: nothing is sent unless the user confirms; after a
    confirmed delete the page reloads on success and alerts on failure, and
    `isDeleting` is off again either way.
   */
  function HandleDelete(key: string, confirmed: bool, deleteSucceeds: bool): (d: GalleryDelete)
    ensures d.requests == [] <==> !confirmed
    ensures confirmed ==> d.requests == [key]
    ensures d.flow == Declined <==> !confirmed
    ensures confirmed ==> (d.flow == Reloaded <==> deleteSucceeds)
    ensures !d.isDeleting
  {
    if !confirmed then GalleryDelete([], Declined, false)
    else GalleryDelete([key], if deleteSucceeds then Reloaded else Alerted, false)
  }
}
