/** The note detail page (`components/NoteDetails.jsx`): the preview switch, the download
    button's label and the file type shown next to the download. The favourite heart
    is `Favorites.Toggle`. */
module NoteDetails {
  import opened Wrappers
  import opened Entities
  import opened Text
  import NotesShop

  // ---------------------------------------------------------------------------
  // Preview

  datatype PreviewResult = PreviewResult(visible: bool, unavailable: bool)

  /** `togglePreview`: flips the preview when the note has a preview address and otherwise
      reports that none is available. */
  function TogglePreview(visible: bool, previewUrl: string): (r: PreviewResult)
    ensures previewUrl != "" ==> r.visible == !visible && !r.unavailable
    ensures previewUrl == "" ==> r.visible == visible && r.unavailable
  {
    if previewUrl != "" then PreviewResult(!visible, false) else PreviewResult(visible, true)
  }

  /** Two clicks leave the preview as it was, whether or not there is one. */
  lemma TogglePreviewTwice(visible: bool, previewUrl: string)
    ensures TogglePreview(TogglePreview(visible, previewUrl).visible, previewUrl).visible == visible
  {
  }

  // ---------------------------------------------------------------------------
  // Download label

  /** What the download button says; the amount's two-decimal formatting is not modelled. */
  datatype DownloadLabel = DownloadPaid(price: int) | DownloadFree

  function Label(n: Note): (l: DownloadLabel)
    ensures l.DownloadPaid? <==> n.price > 0
    ensures l.DownloadPaid? ==> l.price == n.price
  {
    if n.price > 0 then DownloadPaid(n.price) else DownloadFree
  }

  /** The catalogue's price bounds and the detail page's label agree: a note kept under an
      upper bound of 0 downloads for free, and a note kept under a positive lower bound is
      paid, at its own price. */
  lemma LabelAgreesWithPriceFilter(f: NotesShop.Filters, n: Note)
    ensures NotesShop.Passes(f, n) && f.price.max == Some(0) ==> Label(n) == DownloadFree
    ensures NotesShop.Passes(f, n) && f.price.min.Some? && f.price.min.value > 0 ==> Label(n) == DownloadPaid(n.price)
  {
  }

  // ---------------------------------------------------------------------------
  // File type

  const DefaultFileType: string := "Document"

  /** `fileUrl.split('.').pop().toUpperCase() || 'Document'`. */
  function FileType(fileUrl: string): (t: string)
    ensures t != ""
    ensures '.' !in fileUrl && fileUrl != "" ==> t == Upper(fileUrl)
    ensures fileUrl != [] && fileUrl[|fileUrl| - 1] == '.' ==> t == DefaultFileType
    ensures t != DefaultFileType ==> t == Upper(LastPiece(fileUrl, '.'))
  {
    OrElse(Upper(LastPiece(fileUrl, '.')), DefaultFileType)
  }

  /** The type of `name.ext` is the upper-cased extension, whatever dots the name holds. */
  lemma FileTypeOfExtension(name: string, ext: string)
    requires ext != "" && '.' !in ext
    ensures FileType(name + "." + ext) == Upper(ext)
  {
    var s := name + "." + ext;
    assert s[|s| - |ext|..] == ext;
    assert s[|s| - |ext| - 1] == '.';
    SuffixUnique(s, '.', LastPiece(s, '.'), ext);
  }
}
