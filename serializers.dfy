/**
 * The `photo_url` field of the herb serializer: the URL of the large variant of the herb's
 * image, made absolute when the serializer has the request at hand. Making a URL absolute
 * is a function the serializer is given.
 */
module Serializers {
  import opened Wrappers
  import opened Paths
  import opened Thumbnails

  /** The variant a photo URL points at, relative to the media URL. */
  function LargePhotoPath(photo: string): (p: string)
    ensures p == LargeKey + "/" + photo
  {
    "l/" + photo
  }

  /** `get_photo_url`: nothing for a herb without an image; otherwise the media URL followed
      by the large variant's path, made absolute by the request when there is one. */
  function PhotoUrl(photo: string, mediaUrl: string, absoluteUri: Option<string -> string>): (u: Option<string>)
    ensures u.None? <==> photo == ""
    ensures photo != "" && absoluteUri.None? ==> u == Some(mediaUrl + LargePhotoPath(photo))
    ensures photo != "" && absoluteUri.Some? ==> u == Some(absoluteUri.value(mediaUrl + LargePhotoPath(photo)))
  {
    if photo == "" then None
    else
      var relative := mediaUrl + LargePhotoPath(photo);
      if absoluteUri.Some? then Some(absoluteUri.value(relative)) else Some(relative)
  }

  /** For a relative stored name, the photo URL's path below the media root is the file of
      the large variant that the thumbnail field keeps for that name. */
  lemma PhotoUrlNamesLargeVariant(field: ThumbnailField, photo: string)
    requires !IsAbsolute(photo)
    ensures LargePhotoPath(photo) == PathJoin(LargeKey, photo)
    ensures PathJoin(field.mediaRoot, LargePhotoPath(photo)) == field.VariantPath(LargeKey, photo)
    ensures field.VariantPath(LargeKey, photo) in field.Variants(photo)
  {
    PathJoinAssociative(field.mediaRoot, LargeKey, photo);
    assert SizeKeys[2] == LargeKey;
  }

  /** The photo URL of an image the field has just stored points at one of the files it
      wrote for it. */
  lemma PhotoUrlOfStoredImage(field: ThumbnailField, hashed: string)
    requires !IsAbsolute(field.StoredName(hashed))
    ensures PathJoin(field.mediaRoot, LargePhotoPath(field.StoredName(hashed))) in field.Written(hashed)
  {
    PhotoUrlNamesLargeVariant(field, field.StoredName(hashed));
    field.StoredVariantsAreWritten(hashed);
  }
}
