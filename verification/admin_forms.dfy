/** Two rules of the admin page's load handler: the profile-picture check
    run when the upload form is submitted, and the cache-busting query
    appended to every stylesheet link. */
module AdminForms {
  import opened Common

  /** The selected file as the browser reports it. */
  datatype Upload = Upload(mime: string, size: nat)

  datatype Verdict = Accept | Reject(message: string)

  const AllowedTypes: seq<string> := ["image/jpeg", "image/png", "image/gif", "image/jpg"]
  const MaxBytes: nat := 2 * 1024 * 1024
  const TypeMessage := "Only JPG, PNG, or GIF images are allowed."
  const SizeMessage := "File size must be less than 2MB."

  /** The submit handler's decision: no file passes; otherwise the type is
      checked first and the size second. */
  function CheckProfilePicture(file: Option<Upload>): (r: Verdict)
  {
    match file
    case None => Accept
    case Some(f) =>
      if f.mime !in AllowedTypes then Reject(TypeMessage)
      else if f.size > MaxBytes then Reject(SizeMessage)
      else Accept
  }

  /** A file is accepted exactly when it has an allowed type and at most
      2 MiB; a file failing both checks gets the type message. */
  lemma ProfilePictureSpec(file: Option<Upload>)
    ensures CheckProfilePicture(file) == Accept <==>
      file.None? || (file.value.mime in AllowedTypes && file.value.size <= 2097152)
    ensures file.Some? && file.value.mime !in AllowedTypes ==>
      CheckProfilePicture(file) == Reject(TypeMessage)
    ensures file.Some? && file.value.mime in AllowedTypes && file.value.size > 2097152 ==>
      CheckProfilePicture(file) == Reject(SizeMessage)
  {
  }

  /** The size bound is inclusive, and the MIME type, not the file name,
      decides: a 3 MiB PNG is rejected, 1 MiB and exactly 2 MiB PNGs pass,
      and a small file of type text/plain is rejected. */
  lemma ProfilePictureExamples()
    ensures CheckProfilePicture(Some(Upload("image/png", 3 * 1024 * 1024))) == Reject(SizeMessage)
    ensures CheckProfilePicture(Some(Upload("image/png", 1024 * 1024))) == Accept
    ensures CheckProfilePicture(Some(Upload("image/png", 2 * 1024 * 1024))) == Accept
    ensures CheckProfilePicture(Some(Upload("text/plain", 500 * 1024))) == Reject(TypeMessage)
  {
    assert "text/plain" != "image/jpeg" && "text/plain" != "image/png";
    assert "text/plain" != "image/gif" && "text/plain" != "image/jpg";
  }

  /** The upload form's error line and whether the submission went ahead.
      The page may lack the `#profilePicError` element; the handler then
      still blocks a rejected file, with nothing shown. */
  class ProfileForm {
    const hasErrorElement: bool
    var errorVisible: bool
    var errorText: string

    constructor (hasErrorElement: bool)
      ensures this.hasErrorElement == hasErrorElement
      ensures !errorVisible && errorText == ""
    {
      this.hasErrorElement := hasErrorElement;
      errorVisible, errorText := false, "";
    }

    /** The submit handler: hide the error, then block a rejected file with
        its message shown. An accepted file submits natively. */
    method OnSubmit(file: Option<Upload>) returns (prevented: bool)
      modifies this`errorVisible, this`errorText
      ensures prevented <==> CheckProfilePicture(file).Reject?
      ensures hasErrorElement && prevented ==>
        errorVisible && errorText == CheckProfilePicture(file).message
      ensures hasErrorElement && !prevented ==> !errorVisible && errorText == old(errorText)
      ensures !hasErrorElement ==> errorVisible == old(errorVisible) && errorText == old(errorText)
    {
      if hasErrorElement {
        errorVisible := false;
      }
      prevented := false;
      if file.Some? {
        var f := file.value;
        if f.mime !in AllowedTypes {
          if hasErrorElement {
            errorText := TypeMessage;
            errorVisible := true;
          }
          prevented := true;
          return;
        }
        if f.size > MaxBytes {
          if hasErrorElement {
            errorText := SizeMessage;
            errorVisible := true;
          }
          prevented := true;
          return;
        }
      }
    }
  }

  /** A stylesheet address after the cache refresh: an address without '?'
      gets `?v=<now>` appended, any other is left alone. */
  function CacheBusted(href: string, now: nat): (r: string)
    ensures '?' in r
    ensures |href| <= |r| && r[..|href|] == href
    ensures '?' in href ==> r == href
    ensures '?' !in href ==> r == href + "?v=" + NatToString(now)
  {
    if '?' in href then href
    else
      var r := href + "?v=" + NatToString(now);
      assert r[|href|] == '?';
      r
  }

  /** Refreshing twice, at any two times, is the same as refreshing once. */
  lemma CacheBustIdempotent(href: string, t1: nat, t2: nat)
    ensures CacheBusted(CacheBusted(href, t1), t2) == CacheBusted(href, t1)
  {
  }

  /** The load handler's loop over the stylesheet links, in place. */
  method RefreshStylesheets(hrefs: array<string>, now: nat)
    modifies hrefs
    ensures forall k :: 0 <= k < hrefs.Length ==> hrefs[k] == CacheBusted(old(hrefs[k]), now)
  {
    var i := 0;
    while i < hrefs.Length
      invariant 0 <= i <= hrefs.Length
      invariant forall k :: 0 <= k < i ==> hrefs[k] == CacheBusted(old(hrefs[k]), now)
      invariant forall k :: i <= k < hrefs.Length ==> hrefs[k] == old(hrefs[k])
    {
      if '?' !in hrefs[i] {
        hrefs[i] := hrefs[i] + "?v=" + NatToString(now);
      }
      i := i + 1;
    }
  }
}
