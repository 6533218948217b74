/** Gallery records: one per uploaded picture, keyed by the stored file name. */
module Gallery {
  import opened Wrappers
  import opened Uploads
  import opened JsonStore

  datatype Image = Image(id: string, url: string, description: string)

  /** The key the gallery list is filtered on (`img['id']`). */
  function ImageId(img: Image): string {
    img.id
  }

  /** The record appended for a stored file: its id is the stored name and its
      url is the public path of that same file. */
  function NewImage(storedName: string, description: string): (img: Image)
    ensures img.id == storedName
    ensures UploadedName(img.url) == Some(img.id)
    ensures img.description == description
  {
    UploadRefRoundTrip(storedName);
    Image(storedName, UploadRef(storedName), description)
  }

  /** Every record names a file present in the uploads directory and points at
      that file's public path. */
  predicate BackedByUploads(gallery: seq<Image>, uploads: set<string>) {
    forall i | 0 <= i < |gallery| :: gallery[i].id in uploads && gallery[i].url == UploadRef(gallery[i].id)
  }

  /** Storing a file and appending its record keeps every record backed. */
  lemma BackedAfterAdd(gallery: seq<Image>, uploads: set<string>, stored: string, description: string)
    requires BackedByUploads(gallery, uploads)
    ensures BackedByUploads(gallery + [NewImage(stored, description)], uploads + {stored})
  {
    var g := gallery + [NewImage(stored, description)];
    forall i | 0 <= i < |g|
      ensures g[i].id in uploads + {stored} && g[i].url == UploadRef(g[i].id)
    {
      if i < |gallery| {
        assert g[i] == gallery[i];
      }
    }
  }

  /** Removing a file together with every record that names it keeps the other
      records backed. */
  lemma BackedAfterDelete(gallery: seq<Image>, uploads: set<string>, imageId: string)
    requires BackedByUploads(gallery, uploads)
    ensures BackedByUploads(Without(gallery, ImageId, imageId), uploads - {imageId})
  {
    var g := Without(gallery, ImageId, imageId);
    forall i | 0 <= i < |g|
      ensures g[i].id in uploads - {imageId} && g[i].url == UploadRef(g[i].id)
    {
      WithoutCounts(gallery, ImageId, imageId, g[i]);
      assert g[i] in multiset(g);
      assert g[i] in gallery;
      assert ImageId(g[i]) != imageId;
    }
  }
}
