/**
 * The checks a project image passes before it is stored, and the URL it is
 * stored under (the private helpers of the admin ProjectsController).
 */
module ImageUpload {
  import opened Wrappers
  import opened Entities
  import opened Text
  import opened Paths

  /** The part of an uploaded `IFormFile` the checks look at. */
  datatype FormFile = FormFile(length: nat, fileName: string, contentType: string)

  /** The pair `(IsValid, ErrorMessage)`. */
  datatype FileCheck = FileCheck(isValid: bool, errorMessage: string)

  const AllowedExtensions: seq<string> := [".jpg", ".jpeg", ".png", ".gif", ".webp"]
  const AllowedMimeTypes: seq<string> := ["image/jpeg", "image/jpg", "image/png", "image/gif", "image/webp"]

  const ExtensionMessage := "Only image files are allowed (JPG, JPEG, PNG, GIF, WEBP)."
  const MimeMessage := "Invalid file type. Only image files are allowed."
  const NameMessage := "File name contains invalid characters."

  function SizeMessage(maxSizeInMB: int): string {
    "File size exceeds the maximum allowed size of " + IntToString(maxSizeInMB) + " MB."
  }

  /** C# `int` arithmetic: the value taken modulo 2^32 into [-2^31, 2^31). */
  function WrapInt32(x: int): (r: int)
    ensures -0x8000_0000 <= r < 0x8000_0000
    ensures (r - x) % 0x1_0000_0000 == 0
    ensures -0x8000_0000 <= x < 0x8000_0000 ==> r == x
  {
    (x + 0x8000_0000) % 0x1_0000_0000 - 0x8000_0000
  }

  /** `maxSizeInMB * 1024 * 1024`, evaluated in 32-bit arithmetic. */
  function SizeLimit(maxSizeInMB: int): int {
    WrapInt32(WrapInt32(maxSizeInMB * 1024) * 1024)
  }

  /** Whether a file was uploaded at all: a missing or empty file counts as none. */
  predicate HasUpload(file: Option<FormFile>) {
    file.Some? && file.value.length > 0
  }

  predicate ExtensionAllowed(fileName: string, os: Platform) {
    var ext := ToLower(GetExtension(fileName, os));
    ext != "" && ext in AllowedExtensions
  }

  predicate ContentTypeAllowed(contentType: string) {
    contentType != "" && ToLower(contentType) in AllowedMimeTypes
  }

  /** The name without its extension holds none of the platform's invalid characters. */
  predicate NameClean(fileName: string, os: Platform) {
    var stem := GetFileNameWithoutExtension(fileName, os);
    forall i :: 0 <= i < |stem| ==> stem[i] !in os.invalidFileNameChars
  }

  /**
   * ValidateImageFile: no file passes; otherwise size, extension, content
   * type and name are checked in that order and the first failure decides
   * the message.
   */
  function ValidateImageFile(file: Option<FormFile>, maxSizeInMB: int, os: Platform): (r: FileCheck)
    ensures !HasUpload(file) ==> r == FileCheck(true, "")
    ensures r.isValid <==> r.errorMessage == ""
    ensures r.isValid <==>
      (!HasUpload(file)
       || (file.value.length <= SizeLimit(maxSizeInMB) && ExtensionAllowed(file.value.fileName, os)
           && ContentTypeAllowed(file.value.contentType) && NameClean(file.value.fileName, os)))
    ensures HasUpload(file) && file.value.length > SizeLimit(maxSizeInMB) ==>
      r.errorMessage == SizeMessage(maxSizeInMB)
    ensures HasUpload(file) && file.value.length <= SizeLimit(maxSizeInMB)
            && !ExtensionAllowed(file.value.fileName, os) ==>
      r.errorMessage == ExtensionMessage
    ensures HasUpload(file) && file.value.length <= SizeLimit(maxSizeInMB)
            && ExtensionAllowed(file.value.fileName, os) && !ContentTypeAllowed(file.value.contentType) ==>
      r.errorMessage == MimeMessage
    ensures HasUpload(file) && file.value.length <= SizeLimit(maxSizeInMB)
            && ExtensionAllowed(file.value.fileName, os) && ContentTypeAllowed(file.value.contentType)
            && !NameClean(file.value.fileName, os) ==>
      r.errorMessage == NameMessage
  {
    if !HasUpload(file) then FileCheck(true, "")
    else if file.value.length > SizeLimit(maxSizeInMB) then FileCheck(false, SizeMessage(maxSizeInMB))
    else if !ExtensionAllowed(file.value.fileName, os) then FileCheck(false, ExtensionMessage)
    else if !ContentTypeAllowed(file.value.contentType) then FileCheck(false, MimeMessage)
    else if !NameClean(file.value.fileName, os) then FileCheck(false, NameMessage)
    else FileCheck(true, "")
  }

  /**
   * For any limit up to 2047 MB the byte limit is exact: a file of exactly
   * that many bytes passes the size check and one byte more fails it.
   */
  lemma SizeLimitExact(maxSizeInMB: int)
    requires 0 <= maxSizeInMB < 2048
    ensures SizeLimit(maxSizeInMB) == maxSizeInMB * 1048576
  {
  }

  /** From 2048 MB on the product overflows and the limit is no longer the one asked for. */
  lemma SizeLimitOverflows()
    ensures SizeLimit(2048) == -0x8000_0000
    ensures SizeLimit(4096) == 0
  {
  }

  /** The limit the controller uses: 5 MB is 5242880 bytes. */
  lemma FiveMegabytes()
    ensures SizeLimit(5) == 5242880
  {
  }

  /**
   * The extension and the content type are checked independently: a .png
   * name declared as image/jpeg is accepted.
   */
  lemma MismatchedTypesAccepted()
    ensures ValidateImageFile(Some(FormFile(1, "photo.png", "image/jpeg")), 5, Unix).isValid
  {
    PhotoPngAllowed();
    PhotoPngClean();
    JpegAllowed();
    FiveMegabytes();
  }

  lemma PhotoPngAllowed()
    ensures ExtensionAllowed("photo.png", Unix)
  {
    assert LastSeparator("photo.png", Unix) == -1;
    assert LastIndexOf("photo.png", '.') == 5;
    assert GetExtension("photo.png", Unix) == ".png";
    assert ToLower(".png") == ".png";
  }

  lemma PhotoPngClean()
    ensures NameClean("photo.png", Unix)
  {
    assert LastSeparator("photo.png", Unix) == -1;
    assert LastIndexOf("photo.png", '.') == 5;
    assert GetFileNameWithoutExtension("photo.png", Unix) == "photo";
  }

  lemma JpegAllowed()
    ensures ContentTypeAllowed("image/jpeg")
  {
    assert ToLower("image/jpeg") == "image/jpeg";
  }

  /** `Guid.ToString()`: 32 lower-case hex digits grouped 8-4-4-4-12. */
  function GuidToString(g: Guid): (s: string)
    ensures |s| == 36
    ensures s[8] == '-' && s[13] == '-' && s[18] == '-' && s[23] == '-'
  {
    var h := HexDigits(g, 32);
    h[..8] + "-" + h[8..12] + "-" + h[12..16] + "-" + h[16..20] + "-" + h[20..]
  }

  /** Different ids print differently. */
  lemma GuidToStringInjective(g1: Guid, g2: Guid)
    requires GuidToString(g1) == GuidToString(g2)
    ensures g1 == g2
  {
    var s1, s2 := GuidToString(g1), GuidToString(g2);
    var h1, h2 := HexDigits(g1, 32), HexDigits(g2, 32);
    assert h1 == h2 by {
      HexGroups(g1);
      HexGroups(g2);
    }
    Pow16Guid();
    HexDigitsInjective(g1, g2, 32);
  }

  const ImagesFolder := "/images/projects/"

  /** The URL an uploaded image is stored under: the folder, the unique id, '_' and the original name. */
  function ImageUrl(unique: Guid, fileName: string): string {
    ImagesFolder + GuidToString(unique) + "_" + fileName
  }

  /** The stored URL gives back the folder, the unique id and the original file name. */
  lemma ImageUrlParts(unique: Guid, fileName: string)
    ensures var url := ImageUrl(unique, fileName);
      && |url| == |ImagesFolder| + 37 + |fileName|
      && url[..|ImagesFolder|] == ImagesFolder
      && url[|ImagesFolder|..|ImagesFolder| + 36] == GuidToString(unique)
      && url[|ImagesFolder| + 36] == '_'
      && url[|ImagesFolder| + 37..] == fileName
  {
    var url := ImageUrl(unique, fileName);
    assert url == ImagesFolder + GuidToString(unique) + "_" + fileName;
  }

  /** The hex digits of `g` are the printed form with its hyphens taken out. */
  lemma HexGroups(g: Guid)
    ensures var s := GuidToString(g);
      HexDigits(g, 32) == s[..8] + s[9..13] + s[14..18] + s[19..23] + s[24..]
  {
    var h := HexDigits(g, 32);
    var s := GuidToString(g);
    assert s[..8] == h[..8];
    assert s[9..13] == h[8..12];
    assert s[14..18] == h[12..16];
    assert s[19..23] == h[16..20];
    assert s[24..] == h[20..];
    assert h == h[..8] + h[8..12] + h[12..16] + h[16..20] + h[20..];
  }

  /** 32 hex digits hold exactly the 128-bit range. */
  lemma Pow16Guid()
    ensures Pow16(32) == GuidBound
  {
    Pow16Sum(4, 4);
    Pow16Sum(8, 8);
    Pow16Sum(16, 16);
  }

  /** Two uploads under different ids never share a URL, whatever their names. */
  lemma ImageUrlsDistinct(u1: Guid, n1: string, u2: Guid, n2: string)
    requires u1 != u2
    ensures ImageUrl(u1, n1) != ImageUrl(u2, n2)
  {
    ImageUrlParts(u1, n1);
    ImageUrlParts(u2, n2);
    if GuidToString(u1) == GuidToString(u2) {
      GuidToStringInjective(u1, u2);
    }
    var k := |ImagesFolder|;
    assert ImageUrl(u1, n1)[k..k + 36] != ImageUrl(u2, n2)[k..k + 36];
  }
}
