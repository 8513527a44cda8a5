/** The media library dialog (src/app/components/MediaLibraryModal.js): the
  * list of image paths it loads from `getMediaLibrary`, the search box that
  * filters it, and the delete button that calls `deleteImage` and drops the
  * path from the list.
  *
  * `toLowerCase` is a parameter `lower`; the confirm dialog is a boolean.
  */
module MediaLibraryModal {
  import opened JsText
  import opened Lists
  import opened MediaActions

  /** How the awaited `getMediaLibrary()` call came back. */
  datatype Fetched = ArrayOf(items: seq<JsString>) | NotArray | Threw

  /** The list the effect stores: the value when it is an array, else `[]`. */
  function LoadedImages(f: Fetched): (r: seq<JsString>)
    ensures f.ArrayOf? ==> r == f.items
    ensures !f.ArrayOf? ==> r == []
  {
    if f.ArrayOf? then f.items else []
  }

  /** `images.filter((img) => lower(img).includes(lower(searchTerm)))`. */
  function FilteredImages(images: seq<JsString>, searchTerm: JsString, lower: JsString -> JsString): (r: seq<JsString>)
    ensures forall img :: img in r <==> img in images && Includes(lower(img), lower(searchTerm))
    ensures IsSubsequence(r, images)
  {
    Keep(images, img => Includes(lower(img), lower(searchTerm)))
  }

  /** An empty search shows every image, in the loaded order. */
  lemma EmptySearchShowsAll(images: seq<JsString>, lower: JsString -> JsString)
    requires lower([]) == []
    ensures FilteredImages(images, [], lower) == images
  {
    forall img | img in images
      ensures Includes(lower(img), lower([]))
    {
      IncludesEmpty(lower(img));
    }
    KeepAll(images, img => Includes(lower(img), lower([])));
  }

  /** `prev.filter((img) => img !== path)`. */
  function WithoutPath(images: seq<JsString>, path: JsString): (r: seq<JsString>)
    ensures path !in r
    ensures forall img :: img != path ==> (img in r <==> img in images)
    ensures IsSubsequence(r, images)
  {
    Keep(images, img => img != path)
  }

  /** The state of the dialog. */
  class Modal {
    var images: seq<JsString>
    var loading: bool
    var searchTerm: JsString
    var isClosing: bool

    /** The first render: no images yet, loading, an empty search. */
    constructor ()
      ensures images == [] && loading && searchTerm == [] && !isClosing
    {
      images, loading, searchTerm, isClosing := [], true, [], false;
    }

    /** The images on show. */
    function Shown(lower: JsString -> JsString): (r: seq<JsString>)
      reads this
      ensures forall img :: img in r <==> img in images && Includes(lower(img), lower(searchTerm))
    {
      FilteredImages(images, searchTerm, lower)
    }

    /** The mount effect `fetchMedia`: the list is the fetched array, or empty
      * when the value is not an array or the call throws; loading ends. */
    method FetchMedia(f: Fetched)
      modifies this
      ensures images == LoadedImages(f) && !loading
      ensures searchTerm == old(searchTerm) && isClosing == old(isClosing)
    {
      loading := true;
      images := LoadedImages(f);
      loading := false;
    }

    /** The search input's `onChange`. */
    method SetSearchTerm(value: JsString)
      modifies this
      ensures searchTerm == value
      ensures images == old(images) && loading == old(loading) && isClosing == old(isClosing)
    {
      searchTerm := value;
    }

    /** `handleClose()`: the fade-out starts (the delayed `onClose` is not
      * part of this model). */
    method HandleClose()
      modifies this
      ensures isClosing
      ensures images == old(images) && loading == old(loading) && searchTerm == old(searchTerm)
    {
      isClosing := true;
    }

    /** `handleDelete(e, path)`: nothing happens unless confirmed; then
      * `deleteImage(path)` runs and only a success drops the path from the
      * list. */
    method HandleDelete(fs: FileSystem, uploads: JsString, path: JsString, confirmed: bool, fault: bool)
      returns (r: Option<DeleteResult>)
      requires uploads != [] && uploads[0] == SLASH
      modifies this, fs
      ensures r.None? <==> !confirmed
      ensures !confirmed ==> fs.files == old(fs.files) && images == old(images)
      ensures r == Some(Deleted) ==> images == WithoutPath(old(images), path)
      ensures r != Some(Deleted) ==> images == old(images)
      ensures r.Some? && path != [] ==>
        (r == Some(Deleted) <==> var full := FullPath(uploads, path);
                                 StartsWith(full, uploads) && !fault && full in old(fs.files))
      ensures r.Some? && path != [] ==>
        fs.files == if r == Some(Deleted) then old(fs.files) - {FullPath(uploads, path)} else old(fs.files)
      ensures r.Some? && path == [] ==> r == Some(NotDeleted(InvalidPath)) && fs.files == old(fs.files)
      ensures fs.dirs == old(fs.dirs)
      ensures loading == old(loading) && searchTerm == old(searchTerm) && isClosing == old(isClosing)
    {
      if !confirmed {
        return None;
      }
      var result := DeleteImage(fs, uploads, Some(path), fault);
      r := Some(result);
      if result == Deleted {
        images := WithoutPath(images, path);
      }
    }
  }

  /** After a successful delete the path is gone from the dialog whatever the
    * search, and every other image still on show stays on show. */
  lemma DeletedPathHidden(images: seq<JsString>, path: JsString, searchTerm: JsString, lower: JsString -> JsString)
    ensures path !in FilteredImages(WithoutPath(images, path), searchTerm, lower)
    ensures forall img :: img in FilteredImages(images, searchTerm, lower) && img != path ==>
              img in FilteredImages(WithoutPath(images, path), searchTerm, lower)
  {
  }
}
