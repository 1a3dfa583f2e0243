/**
 * The thumbnail image field of the herb model, as path bookkeeping. Before a herb is
 * saved the uploaded image is stored as three WEBP variants, one per size key, under
 * `media_root/<size>/<subdir>/<hash>.webp`, and the field is set to `<subdir>/<hash>.webp`.
 * Before a herb is deleted, or when its image is replaced, the variants of the old name
 * are removed.
 *
 * The file system is the set of paths of the files in it. The image decoding, resizing
 * and encoding are not modelled; the SHA-256 hex digest is a function the field is given.
 */
module Thumbnails {
  import opened Wrappers
  import opened Paths

  type Bytes = seq<bv8>

  datatype Size = Size(width: nat, height: nat)

  /** The size keys, in the order the table lists them. */
  const SizeKeys: seq<string> := ["s", "m", "l"]

  /** The bounding box of each variant. */
  const Sizes: map<string, Size> := map["s" := Size(100, 100), "m" := Size(300, 300), "l" := Size(600, 600)]

  /** The key of the largest variant. */
  const LargeKey: string := "l"

  /** The keys of the size table are exactly the three size keys, which are distinct; the
      large key is one of them. */
  lemma SizeTable()
    ensures forall k :: k in Sizes <==> k in SizeKeys
    ensures forall i, j :: 0 <= i < j < |SizeKeys| ==> SizeKeys[i] != SizeKeys[j]
    ensures LargeKey in Sizes && Sizes[LargeKey] == Size(600, 600)
  {
  }

  const WebpSuffix: string := ".webp"

  /** The name of the variants: the hex digest of the original bytes, then `.webp`. */
  function HashedName(digest: Bytes -> string, data: Bytes): (n: string)
    ensures |n| == |digest(data)| + |WebpSuffix|
    ensures n[..|digest(data)|] == digest(data) && n[|digest(data)|..] == WebpSuffix
  {
    digest(data) + WebpSuffix
  }

  predicate IsHexDigit(c: char) {
    '0' <= c <= '9' || 'a' <= c <= 'f'
  }

  /** What `hexdigest()` returns: lower-case hexadecimal digits. */
  predicate IsHex(s: string) {
    forall i :: 0 <= i < |s| ==> IsHexDigit(s[i])
  }

  /** Where uploads go: a directory, or a callable (which the variants ignore). */
  datatype UploadTo = Directory(path: string) | Callable

  function Subdir(u: UploadTo): (d: string)
    ensures u.Directory? ==> d == u.path
    ensures u.Callable? ==> d == ""
  {
    if u.Directory? then u.path else ""
  }

  /** The media files: the paths of the files that exist. */
  class Disk {
    var files: set<string>

    constructor (files: set<string>)
      ensures this.files == files
    {
      this.files := files;
    }
  }

  /** The part of a herb row the field reads: its primary key (absent or 0 when the row is
      new) and the stored image name (`""` when there is none). */
  class HerbRow {
    var pk: Option<int>
    var photo: string

    constructor (pk: Option<int>, photo: string)
      ensures this.pk == pk && this.photo == photo
    {
      this.pk := pk;
      this.photo := photo;
    }
  }

  /** The stored image of a saved row is being replaced: the row has a primary key, its
      stored version has an image, and the new image is empty or has another name. */
  predicate Replaces(pk: Option<int>, photo: string, stored: map<int, string>) {
    pk.Some? && pk.value != 0 && pk.value in stored && stored[pk.value] != ""
    && (photo == "" || stored[pk.value] != photo)
  }

  class ThumbnailField {
    const mediaRoot: string
    const uploadTo: UploadTo
    const digest: Bytes -> string

    constructor (mediaRoot: string, uploadTo: UploadTo, digest: Bytes -> string)
      ensures this.mediaRoot == mediaRoot && this.uploadTo == uploadTo && this.digest == digest
    {
      this.mediaRoot := mediaRoot;
      this.uploadTo := uploadTo;
      this.digest := digest;
    }

    /** Where the variant `key` of the image named `hashed` is written. */
    function SavePath(key: string, hashed: string): string {
      PathJoin(PathJoin3(mediaRoot, key, Subdir(uploadTo)), hashed)
    }

    /** The name the field stores for the image named `hashed`. */
    function StoredName(hashed: string): string {
      PathJoin(Subdir(uploadTo), hashed)
    }

    /** A hex digest never starts with `/`, so with a relative upload directory the stored
        name of an image is relative too: joining it below a directory keeps the
        directory. */
    lemma StoredHashedNameRelative(data: Bytes)
      requires IsHex(digest(data)) && !IsAbsolute(Subdir(uploadTo))
      ensures !IsAbsolute(HashedName(digest, data))
      ensures !IsAbsolute(StoredName(HashedName(digest, data)))
    {
      var h := HashedName(digest, data);
      assert h[0] == (if |digest(data)| > 0 then digest(data)[0] else '.');
      var d := Subdir(uploadTo);
      if d != [] {
        assert StoredName(h)[0] == d[0];
      }
    }

    /** Where the variant `key` of a stored name is looked for on deletion. */
    function VariantPath(key: string, name: string): string {
      PathJoin3(mediaRoot, key, name)
    }

    /** The files written for the image named `hashed`. */
    function Written(hashed: string): set<string> {
      set j | 0 <= j < |SizeKeys| :: SavePath(SizeKeys[j], hashed)
    }

    /** The files that belong to a stored name. */
    function Variants(name: string): set<string> {
      set j | 0 <= j < |SizeKeys| :: VariantPath(SizeKeys[j], name)
    }

    /** The files removed for the stored name are exactly the files written for it. */
    lemma StoredVariantsAreWritten(hashed: string)
      ensures Variants(StoredName(hashed)) == Written(hashed)
    {
      forall j | 0 <= j < |SizeKeys|
        ensures VariantPath(SizeKeys[j], StoredName(hashed)) == SavePath(SizeKeys[j], hashed)
      {
        PathJoinAssociative(PathJoin(mediaRoot, SizeKeys[j]), Subdir(uploadTo), hashed);
      }
      assert forall p :: p in Variants(StoredName(hashed)) <==> p in Written(hashed) by {
        forall p ensures p in Variants(StoredName(hashed)) <==> p in Written(hashed) {
          if p in Written(hashed) {
            var j :| 0 <= j < |SizeKeys| && p == SavePath(SizeKeys[j], hashed);
            assert p == VariantPath(SizeKeys[j], StoredName(hashed));
          }
        }
      }
    }

    /** A relative name has three distinct variant files. */
    lemma VariantsDistinct(name: string)
      requires !IsAbsolute(name)
      ensures forall i, j :: 0 <= i < j < |SizeKeys| ==> VariantPath(SizeKeys[i], name) != VariantPath(SizeKeys[j], name)
    {
      var sep := if OpenEnded(mediaRoot) then "" else "/";
      forall i | 0 <= i < |SizeKeys|
        ensures VariantPath(SizeKeys[i], name) == mediaRoot + sep + SizeKeys[i] + "/" + name
      {
        var dir := PathJoin(mediaRoot, SizeKeys[i]);
        assert dir == mediaRoot + sep + SizeKeys[i];
        assert dir[|dir| - 1] == SizeKeys[i][0];
        assert !OpenEnded(dir);
      }
      forall i, j | 0 <= i < j < |SizeKeys|
        ensures VariantPath(SizeKeys[i], name) != VariantPath(SizeKeys[j], name)
      {
        var n := |mediaRoot + sep|;
        assert VariantPath(SizeKeys[i], name)[n] == SizeKeys[i][0];
        assert VariantPath(SizeKeys[j], name)[n] == SizeKeys[j][0];
      }
    }

    /** `process_image`: nothing happens for an empty field or an image that cannot be
        read (`original` is then absent). Otherwise one variant per size key is written
        and the field is set to the stored name of the hashed bytes. */
    method ProcessImage(row: HerbRow, disk: Disk, original: Option<Bytes>)
      modifies row, disk
      ensures row.pk == old(row.pk)
      ensures old(row.photo) == "" || original.None? ==> row.photo == old(row.photo) && disk.files == old(disk.files)
      ensures old(row.photo) != "" && original.Some? ==>
        row.photo == StoredName(HashedName(digest, original.value))
        && disk.files == old(disk.files) + Written(HashedName(digest, original.value))
    {
      if row.photo == "" {
        return;
      }
      if original.None? {
        return;
      }
      var hashed := HashedName(digest, original.value);
      WriteVariants(hashed, disk);
      row.photo := StoredName(hashed);
    }

    /** Writes the variant of `hashed` for each size key, one after the other. */
    method WriteVariants(hashed: string, disk: Disk)
      modifies disk
      ensures disk.files == old(disk.files) + Written(hashed)
    {
      ghost var done: set<string> := {};
      for i := 0 to |SizeKeys|
        invariant done == set j | 0 <= j < i :: SavePath(SizeKeys[j], hashed)
        invariant disk.files == old(disk.files) + done
      {
        var path := SavePath(SizeKeys[i], hashed);
        disk.files := disk.files + {path};
        WrittenStep(done, i, hashed);
        done := done + {path};
      }
    }

    lemma WrittenStep(done: set<string>, i: nat, hashed: string)
      requires i < |SizeKeys| && done == set j | 0 <= j < i :: SavePath(SizeKeys[j], hashed)
      ensures done + {SavePath(SizeKeys[i], hashed)} == set j | 0 <= j < i + 1 :: SavePath(SizeKeys[j], hashed)
    {
    }

    /** Removes the variant files of `name` that exist, one size key at a time. */
    method RemoveVariants(name: string, disk: Disk)
      modifies disk
      ensures disk.files == old(disk.files) - Variants(name)
    {
      ghost var done: set<string> := {};
      for i := 0 to |SizeKeys|
        invariant done == set j | 0 <= j < i :: VariantPath(SizeKeys[j], name)
        invariant disk.files == old(disk.files) - done
      {
        var path := VariantPath(SizeKeys[i], name);
        if path in disk.files {
          disk.files := disk.files - {path};
        }
        done := done + {path};
        assert done == set j | 0 <= j < i + 1 :: VariantPath(SizeKeys[j], name);
      }
    }

    /** `delete_images`: removes the existing variants of the row's image, and nothing for
        a row without one. */
    method DeleteImages(row: HerbRow, disk: Disk)
      modifies disk
      ensures row.photo == "" ==> disk.files == old(disk.files)
      ensures row.photo != "" ==> disk.files == old(disk.files) - Variants(row.photo)
    {
      if row.photo == "" {
        return;
      }
      RemoveVariants(row.photo, disk);
    }

    /** `auto_delete_file_on_change`: removes the variants of the stored image when the row
        is saved with another image or none, does nothing for a new row or one the database
        does not hold, and always answers false. `stored` maps each saved row's primary key
        to its stored image name. */
    method AutoDeleteOnChange(row: HerbRow, stored: map<int, string>, disk: Disk) returns (r: bool)
      modifies disk
      ensures !r
      ensures Replaces(row.pk, row.photo, stored) ==> disk.files == old(disk.files) - Variants(stored[row.pk.value])
      ensures !Replaces(row.pk, row.photo, stored) ==> disk.files == old(disk.files)
    {
      if row.pk.None? || row.pk.value == 0 {
        return false;
      }
      if row.pk.value !in stored {
        return false;
      }
      var oldFile := stored[row.pk.value];
      var newFile := row.photo;
      if oldFile != "" && (newFile == "" || oldFile != newFile) {
        RemoveVariants(oldFile, disk);
      }
      return false;
    }
  }
}
