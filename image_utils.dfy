/**
 * The base64 image helpers of the recipes app: splitting a data URI
 * `data:image/<ext>;base64,<payload>` into header and payload, naming the
 * decoded file, and normalising the detected extension.
 *
 * The base64 decoder (`base64.b64decode`), the image-type sniffer
 * (`imghdr.what`) and the random identifier (`str(uuid.uuid4())`) are
 * parameters.
 */
module ImageUtils {
  import opened Wrappers
  import opened Text

  type Bytes = seq<bv8>

  /** A decoder answers `None` where `b64decode` raises. */
  type Decoder = string -> Option<Bytes>

  /** `ContentFile(content, name=name)` */
  datatype ContentFile = ContentFile(content: Bytes, name: string)

  datatype ImageError =
    | WrongPartCount(parts: nat)   // `ValueError` from unpacking the split into two names
    | UndecodablePayload           // the decoder rejected the payload

  const Separator: string := ";base64,"

  lemma SeparatorNoSelfOverlap()
    ensures NoSelfOverlap(Separator)
  {
  }

  /** `base64_to_image(data)` */
  function Base64ToImage(data: string, decode: Decoder): (r: Result<ContentFile, ImageError>)
    ensures |Split(data, Separator)| != 2 ==> r == Failure(WrongPartCount(|Split(data, Separator)|))
    ensures r.Success? ==> r.value.name == "image." + AfterLastSlash(Split(data, Separator)[0])
  {
    var parts := Split(data, Separator);
    if |parts| != 2 then Failure(WrongPartCount(|parts|))
    else
      var header, payload := parts[0], parts[1];
      match decode(payload)
      case None => Failure(UndecodablePayload)
      case Some(content) => Success(ContentFile(content, "image." + AfterLastSlash(header)))
  }

  /** A split into exactly two pieces happens exactly when the text is
      `header ; base64 , payload` with the separator in neither piece. */
  lemma TwoPieces(data: string)
    ensures |Split(data, Separator)| == 2 ==>
              var parts := Split(data, Separator);
              data == parts[0] + Separator + parts[1] && !Contains(parts[0], Separator) && !Contains(parts[1], Separator)
  {
    var parts := Split(data, Separator);
    if |parts| == 2 {
      SplitJoin(data, Separator);
      SplitPiecesClean(data, Separator);
      assert Join(parts, Separator) == parts[0] + Separator + Join(parts[1..], Separator);
      assert parts[1..] == [parts[1]];
    }
  }

  /** A well-formed data URI becomes `image.<text after the header's last slash>` with the decoded payload. */
  lemma Base64ToImageWellFormed(header: string, payload: string, decode: Decoder)
    requires !Contains(header, Separator) && !Contains(payload, Separator)
    requires decode(payload).Some?
    ensures Base64ToImage(header + Separator + payload, decode) ==
              Success(ContentFile(decode(payload).value, "image." + AfterLastSlash(header)))
  {
    SplitTwo(header, Separator, payload);
  }

  /** Every accepted URI is a header and a payload without the separator, and its content is the decoded payload. */
  lemma Base64ToImageAccepted(data: string, decode: Decoder)
    requires Base64ToImage(data, decode).Success?
    ensures var parts := Split(data, Separator);
            |parts| == 2 && data == parts[0] + Separator + parts[1] && !Contains(parts[0], Separator) &&
            !Contains(parts[1], Separator) && decode(parts[1]) == Some(Base64ToImage(data, decode).value.content)
  {
    TwoPieces(data);
  }

  /** Text without the separator, or with it twice, is refused by the unpacking. */
  lemma Base64ToImageRejects(data: string, a: string, b: string, c: string, decode: Decoder)
    ensures !Contains(data, Separator) ==> Base64ToImage(data, decode) == Failure(WrongPartCount(1))
    ensures Base64ToImage(a + Separator + b + Separator + c, decode).Failure?
  {
    var s := a + Separator + b + Separator + c;
    match Find(s, Separator)
    case None =>
      assert OccursAt(s, Separator, |a|) by {
        assert s[|a|..|a| + |Separator|] == Separator;
      }
    case Some(i) =>
      var rest := s[i + |Separator|..];
      SplitStep(s, Separator, i);
      RestStillSplits(s, Separator, a, b, c, i);
  }

  /** After the first separator of `a + sep + b + sep + c` the separator still occurs. */
  lemma RestStillSplits(s: string, sep: string, a: string, b: string, c: string, i: nat)
    requires |sep| > 0 && s == a + sep + b + sep + c
    requires Find(s, sep) == Some(i)
    ensures |Split(s[i + |sep|..], sep)| >= 2
  {
    var rest := s[i + |sep|..];
    SecondOccurrence(s, sep, a, b, c, i);
    var j := Find(rest, sep).value;
    SplitStep(rest, sep, j);
  }

  lemma SecondOccurrence(s: string, sep: string, a: string, b: string, c: string, i: nat)
    requires |sep| > 0 && s == a + sep + b + sep + c
    requires Find(s, sep) == Some(i)
    ensures Contains(s[i + |sep|..], sep)
  {
    TwoOccurrences(a, sep, b, c);
    var second := |a| + |sep| + |b|;
    assert i <= |a|;
    OccursInTail(s, sep, i + |sep|, second - i - |sep|);
  }

  /** `sep` occurs in `a + sep + b + sep + c` right after `a` and right after `b`. */
  lemma TwoOccurrences(a: string, sep: string, b: string, c: string)
    ensures OccursAt(a + sep + b + sep + c, sep, |a|)
    ensures OccursAt(a + sep + b + sep + c, sep, |a| + |sep| + |b|)
  {
    var s := a + sep + b + sep + c;
    assert s[|a|..|a| + |sep|] == sep;
    assert s[|a| + |sep| + |b|..|a| + |sep| + |b| + |sep|] == sep;
  }

  /** `get_file_extension`: the detected type, with `jpeg` reported as `jpg`. */
  function GetFileExtension(detected: Option<string>): (r: Option<string>)
    ensures r != Some("jpeg")
    ensures detected == Some("jpeg") ==> r == Some("jpg")
    ensures detected != Some("jpeg") ==> r == detected
  {
    if detected == Some("jpeg") then Some("jpg") else detected
  }

  /** Normalising twice is normalising once. */
  lemma GetFileExtensionIdempotent(detected: Option<string>)
    ensures GetFileExtension(GetFileExtension(detected)) == GetFileExtension(detected)
  {
  }

  /** `s[:n]` */
  function Take(s: string, n: nat): (r: string)
    ensures |r| == if |s| < n then |s| else n
    ensures r == s[..|r|]
  {
    if |s| <= n then s else s[..n]
  }

  /** `"%s" % x` for the optional extension: Python prints a missing one as `None`. */
  function ExtensionText(ext: Option<string>): string {
    match ext
    case None => "None"
    case Some(e) => e
  }

  /** Whether `to_internal_value` strips a header: the text must contain both `data:` and the separator. */
  predicate HasHeader(data: string) {
    Contains(data, "data:") && Contains(data, Separator)
  }

  /** `Base64ImageField.to_internal_value(data)` for a string: the file handed on to the image field. */
  function ToInternalValue(data: string, decode: Decoder, uuid: string, detect: Bytes -> Option<string>): (r: Result<ContentFile, ImageError>)
    ensures HasHeader(data) && |Split(data, Separator)| != 2 ==> r == Failure(WrongPartCount(|Split(data, Separator)|))
    ensures !HasHeader(data) ==> (r.Success? <==> decode(data).Some?)
    ensures !HasHeader(data) && r.Success? ==> r.value.content == decode(data).value
    ensures r.Success? ==>
              var stem := Take(uuid, 12);
              r.value.name == stem + "." + ExtensionText(GetFileExtension(detect(r.value.content)))
  {
    var payload :-
      if HasHeader(data) then
        var parts := Split(data, Separator);
        if |parts| != 2 then Failure(WrongPartCount(|parts|)) else Success(parts[1])
      else Success(data);
    match decode(payload)
    case None => Failure(UndecodablePayload)
    case Some(content) =>
      var fileName := Take(uuid, 12);
      var extension := GetFileExtension(detect(content));
      Success(ContentFile(content, fileName + "." + ExtensionText(extension)))
  }

  /** With a `data:` header the payload after the separator is decoded; the header is dropped. */
  lemma ToInternalValueStripsHeader(header: string, payload: string, decode: Decoder, uuid: string, detect: Bytes -> Option<string>)
    requires Contains(header, "data:")
    requires !Contains(header, Separator) && !Contains(payload, Separator)
    ensures ToInternalValue(header + Separator + payload, decode, uuid, detect).Success? <==> decode(payload).Some?
    ensures decode(payload).Some? ==>
              ToInternalValue(header + Separator + payload, decode, uuid, detect).value.content == decode(payload).value
  {
    var data := header + Separator + payload;
    SplitTwo(header, Separator, payload);
    var k: nat :| k <= |header| && OccursAt(header, "data:", k);
    assert OccursAt(data, "data:", k) by {
      assert data[k..k + 5] == header[k..k + 5];
    }
    assert OccursAt(data, Separator, |header|) by {
      assert data[|header|..|header| + |Separator|] == Separator;
    }
    assert HasHeader(data);
  }

  /** The stored name is the first twelve characters of the identifier, a dot, and the extension. */
  lemma FileNameShape(data: string, decode: Decoder, uuid: string, detect: Bytes -> Option<string>)
    requires |uuid| >= 12
    requires ToInternalValue(data, decode, uuid, detect).Success?
    ensures var name := ToInternalValue(data, decode, uuid, detect).value.name;
            |name| >= 13 && name[..12] == uuid[..12] && name[12] == '.'
  {
  }
}
