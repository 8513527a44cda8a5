/** The image flow of the post editor's toolbar
  * (src/app/components/TiptapEditor.js): choosing a file in the media
  * library, filling in its attributes, and the default alt text offered for it.
  */
module TiptapEditor {
  import opened JsText

  const SLASH: CodeUnit := 0x2F
  const DOT: CodeUnit := 0x2E
  const DASH: CodeUnit := 0x2D
  const UNDERSCORE: CodeUnit := 0x5F
  const SPACE: CodeUnit := 0x20

  /** `.replace(/[-_]/g, " ")`. */
  function DashesToSpaces(s: JsString): (r: JsString)
    ensures |r| == |s| && DASH !in r && UNDERSCORE !in r
    ensures forall i :: 0 <= i < |s| ==> r[i] == (if s[i] == DASH || s[i] == UNDERSCORE then SPACE else s[i])
  {
    seq(|s|, i requires 0 <= i < |s| => if s[i] == DASH || s[i] == UNDERSCORE then SPACE else s[i])
  }

  /** The alt text of one file name: the name without its last `.`-part,
    * with dashes and underscores read as spaces. */
  function AltOfName(name: JsString): JsString {
    var parts := Split(name, DOT);
    DashesToSpaces(Join(parts[..|parts| - 1], DOT))
  }

  /** `generateDefaultAlt()`: `""` without a selected path, otherwise the
    * alt text of the part after the last `/`. */
  function GenerateDefaultAlt(selectedImagePath: Option<JsString>): (r: JsString)
    ensures Blank(selectedImagePath) ==> r == []
    ensures DASH !in r && UNDERSCORE !in r
  {
    if Blank(selectedImagePath) then []
    else
      var segments := Split(selectedImagePath.value, SLASH);
      AltOfName(segments[|segments| - 1])
  }

  /** Only the file name counts: the directories before the last `/` do not
    * change the alt text. */
  lemma AltIgnoresDirectories(dir: JsString, name: JsString)
    requires SLASH !in name
    ensures GenerateDefaultAlt(Some(dir + [SLASH] + name)) == GenerateDefaultAlt(Some(name))
  {
    SplitLast(dir, SLASH, name);
    SplitNoSeparator(name, SLASH);
    if name == [] {
      SplitNoSeparator(name, DOT);
    }
  }

  /** The last extension is dropped and every earlier dot is kept. */
  lemma AltDropsLastExtension(base: JsString, ext: JsString)
    requires SLASH !in base && SLASH !in ext && DOT !in ext
    ensures GenerateDefaultAlt(Some(base + [DOT] + ext)) == DashesToSpaces(base)
  {
    var name := base + [DOT] + ext;
    assert SLASH !in name by {
      assert forall i :: 0 <= i < |name| ==> name[i] == (if i < |base| then base[i] else if i == |base| then DOT else ext[i - |base| - 1]);
    }
    SplitNoSeparator(name, SLASH);
    SplitLastSeparator(base, DOT, ext);
    var parts := Split(name, DOT);
    assert parts[..|parts| - 1] == Split(base, DOT);
    JoinSplit(base, DOT);
  }

  /** A name without a dot has no extension to drop and yields `""`. */
  lemma AltWithoutDotIsEmpty(name: JsString)
    requires SLASH !in name && DOT !in name
    ensures GenerateDefaultAlt(Some(name)) == []
  {
    SplitNoSeparator(name, SLASH);
    SplitNoSeparator(name, DOT);
  }

  /** An image node the editor inserts: `setImage({ src, alt, width, height })`. */
  datatype Image = Image(src: JsString, alt: JsString, width: Option<JsNumber>, height: Option<JsNumber>)

  /** `width ? parseInt(width, 10) : undefined`. */
  function Dimension(v: Option<JsString>): (r: Option<JsNumber>)
    ensures Blank(v) <==> r.None?
    ensures r.Some? ==> r.value == ParseInt(v.value)
  {
    if Blank(v) then None else Some(ParseInt(v.value))
  }

  /** The toolbar's image state, and the images the editor has received. */
  class Toolbar {
    var mediaLibraryOpen: bool
    var attributesModalOpen: bool
    var selectedImagePath: Option<JsString>
    var inserted: seq<Image>

    constructor ()
      ensures !mediaLibraryOpen && !attributesModalOpen && selectedImagePath.None? && inserted == []
    {
      mediaLibraryOpen, attributesModalOpen, selectedImagePath, inserted := false, false, None, [];
    }

    /** `handleSelectImageFromLibrary(imagePath)`: the library closes, the
      * path is kept and the attributes modal opens. */
    method SelectImageFromLibrary(imagePath: JsString)
      modifies this
      ensures !mediaLibraryOpen && attributesModalOpen && selectedImagePath == Some(imagePath)
      ensures inserted == old(inserted)
    {
      mediaLibraryOpen := false;
      selectedImagePath := Some(imagePath);
      attributesModalOpen := true;
    }

    /** `handleSetImageAttributes({ alt, width, height })`: with a selected
      * path the image is inserted; either way the modal closes and the path
      * is cleared. */
    method SetImageAttributes(alt: JsString, width: Option<JsString>, height: Option<JsString>)
      modifies this
      ensures !attributesModalOpen && selectedImagePath.None? && mediaLibraryOpen == old(mediaLibraryOpen)
      ensures Blank(old(selectedImagePath)) ==> inserted == old(inserted)
      ensures !Blank(old(selectedImagePath)) ==>
        inserted == old(inserted) + [Image(old(selectedImagePath).value, alt, Dimension(width), Dimension(height))]
    {
      if !Blank(selectedImagePath) {
        inserted := inserted + [Image(selectedImagePath.value, alt, Dimension(width), Dimension(height))];
      }
      attributesModalOpen := false;
      selectedImagePath := None;
    }
  }

  /** Choosing a library file and confirming its attributes inserts exactly
    * one image with that source and leaves both dialogs closed. */
  method ChooseAndInsert(t: Toolbar, imagePath: JsString, alt: JsString, width: Option<JsString>, height: Option<JsString>)
    requires imagePath != []
    modifies t
    ensures !t.mediaLibraryOpen && !t.attributesModalOpen && t.selectedImagePath.None?
    ensures t.inserted == old(t.inserted) + [Image(imagePath, alt, Dimension(width), Dimension(height))]
  {
    t.SelectImageFromLibrary(imagePath);
    t.SetImageAttributes(alt, width, height);
  }
}
