/** The rules that decide a beneficiary's `image_url` when the record is created
    and when it is edited. */
module Beneficiaries {
  import opened Wrappers
  import opened Text
  import opened Uploads

  datatype Beneficiary = Beneficiary(
    name: string,
    story: string,
    imageUrl: string,
    amountNeeded: int,
    amountCollected: int)

  const PlaceholderPrefix: string := "https://placehold.co/600x400/FFC107/333333?text="

  /** The placehold.co image whose text parameter is `word`. */
  function Placeholder(word: string): (url: string)
    ensures |url| == |PlaceholderPrefix| + |word|
    ensures url[..|PlaceholderPrefix|] == PlaceholderPrefix
    ensures url[|PlaceholderPrefix|..] == word
  {
    PlaceholderPrefix + word
  }

  /** The image of a new beneficiary, by priority: the accepted upload, else the
      non-empty form URL, else a placeholder naming the first word of the name.
      `None` is the case in which the handler raises: no upload, no URL and a
      name without a word. */
  function NewImageUrl(name: string, formUrl: string, photo: Option<string>, sanitize: string -> string): (r: Option<string>)
    ensures AcceptsUpload(photo) ==> r == Some(UploadRef(sanitize(photo.value)))
    ensures !AcceptsUpload(photo) && formUrl != "" ==> r == Some(formUrl)
    ensures !AcceptsUpload(photo) && formUrl == "" && FirstWord(name).Some? ==>
      r == Some(Placeholder(FirstWord(name).value))
    ensures r.None? <==> !AcceptsUpload(photo) && formUrl == "" && FirstWord(name).None?
    ensures r.Some? ==> r.value != ""
    ensures r.Some? && !AcceptsUpload(photo) && formUrl == "" ==>
      exists i | 0 <= i <= |r.value| :: r.value[i..] == FirstWord(name).value
  {
    if AcceptsUpload(photo) then
      UploadRefRoundTrip(sanitize(photo.value));
      Some(UploadRef(sanitize(photo.value)))
    else if formUrl != "" then Some(formUrl)
    else match FirstWord(name) {
      case None => None
      case Some(word) =>
        Some(Placeholder(word))
    }
  }

  /** The case of a name, a story and an amount with no photo and no URL: the
      placeholder carries the name. */
  lemma PlaceholderForAna(sanitize: string -> string)
    ensures NewImageUrl("Ana", "", None, sanitize) == Some(Placeholder("Ana"))
  {
    assert !IsSpace('A') && !IsSpace('n') && !IsSpace('a');
    FirstWordOf("", "Ana", "");
    assert "" + "Ana" + "" == "Ana";
  }

  /** The image of an edited beneficiary: an accepted upload replaces it; when the
      photo field is present but its upload is not accepted, a non-empty form URL
      different from the current image replaces it; in every other case, including
      a request without a photo field, the image is kept. */
  function EditedImageUrl(current: string, formUrl: string, photo: Option<string>, sanitize: string -> string): (r: string)
    ensures AcceptsUpload(photo) ==> r == UploadRef(sanitize(photo.value))
    ensures !AcceptsUpload(photo) ==> r == current || r == formUrl
  {
    if AcceptsUpload(photo) then UploadRef(sanitize(photo.value))
    else if photo.Some? && formUrl != "" && formUrl != current then formUrl
    else current
  }

  /** The stored image changes exactly when the photo field is present and either
      the upload is accepted and leads elsewhere, or the upload is not accepted and
      a non-empty, different form URL is given. */
  lemma EditedImageChanges(current: string, formUrl: string, photo: Option<string>, sanitize: string -> string)
    ensures EditedImageUrl(current, formUrl, photo, sanitize) != current <==>
      photo.Some? &&
      (if AcceptsUpload(photo) then UploadRef(sanitize(photo.value)) != current
       else formUrl != "" && formUrl != current)
  {
  }

  /** Without a photo field the form URL is ignored, even a new one. */
  lemma EditIgnoresUrlWithoutPhotoField(current: string, formUrl: string, sanitize: string -> string)
    ensures EditedImageUrl(current, formUrl, None, sanitize) == current
  {
  }
}
