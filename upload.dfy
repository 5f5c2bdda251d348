/**
 * The check the photo picker runs on a chosen file before it is accepted:
 * only JPEG and PNG images under two mebibytes get through, and each failed
 * condition raises its own error message.
 */
module Upload {

  /** What the picker reports of a chosen file: its MIME type and its size in bytes. */
  datatype PickedFile = PickedFile(mimeType: string, size: nat)

  /** The two error messages the check can raise. */
  datatype UploadError =
    | NotJpgOrPng   // "You can only upload JPG/PNG file!"
    | TooLarge      // "Image must smaller than 2MB!"

  /** The check's return value together with the messages it raised, in order. */
  datatype UploadCheck = UploadCheck(accepted: bool, errors: seq<UploadError>)

  /** Two mebibytes in bytes. */
  const MaxBytes: nat := 2 * 1024 * 1024

  /** The picker's `beforeUpload` hook; the size test divides as JavaScript numbers do. */
  function BeforeUpload(file: PickedFile): (r: UploadCheck)
    ensures r.accepted <==> (file.mimeType == "image/jpeg" || file.mimeType == "image/png")
                            && file.size < MaxBytes
    ensures r.accepted <==> r.errors == []
    ensures (NotJpgOrPng in r.errors) <==> !(file.mimeType == "image/jpeg" || file.mimeType == "image/png")
    ensures (TooLarge in r.errors) <==> MaxBytes <= file.size
    ensures |r.errors| <= 2
    ensures |r.errors| == 2 ==> r.errors == [NotJpgOrPng, TooLarge]
  {
    var isJpgOrPng := file.mimeType == "image/jpeg" || file.mimeType == "image/png";
    var isLt2M := (file.size as real) / 1024.0 / 1024.0 < 2.0;
    UploadCheck(isJpgOrPng && isLt2M,
                (if isJpgOrPng then [] else [NotJpgOrPng]) + (if isLt2M then [] else [TooLarge]))
  }

  /** A PNG of exactly two mebibytes is refused for its size alone; one byte less passes. */
  lemma SizeBoundIsStrict()
    ensures BeforeUpload(PickedFile("image/png", MaxBytes)) == UploadCheck(false, [TooLarge])
    ensures BeforeUpload(PickedFile("image/png", MaxBytes - 1)) == UploadCheck(true, [])
  {
  }

  /** A small GIF is refused for its type alone. */
  lemma TypeIsChecked()
    ensures BeforeUpload(PickedFile("image/gif", 10)) == UploadCheck(false, [NotJpgOrPng])
  {
  }
}
