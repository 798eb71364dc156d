/**
 * The resume upload page: the user either picks one of three stored resumes
 * or chooses a new file; the start button is enabled once something is
 * selected.  The page's state is the pair (selectedResume, uploadedFile).
 */
module ResumeUpload {
  import opened Wrappers

  /** The values `selectedResume` takes: null, stored resume 1, 2 or 3, or `'new_upload'`. */
  datatype Selection = NoSelection | Existing(k: nat) | NewUpload

  /** A browser `File`, reduced to its name. */
  datatype File = File(name: string)

  class Page {
    var selectedResume: Selection
    var uploadedFile: Option<File>

    /** A file is held exactly when the new upload is the selection; stored resumes are numbered 1..3. */
    ghost predicate Valid()
      reads this
    {
      && (uploadedFile.Some? <==> selectedResume == NewUpload)
      && (selectedResume.Existing? ==> 1 <= selectedResume.k <= 3)
    }

    /** The start button's `disabled={!selectedResume}`, negated. */
    predicate StartEnabled()
      reads this
      ensures Valid() ==> (StartEnabled() <==> uploadedFile.Some? || selectedResume.Existing?)
    {
      selectedResume != NoSelection
    }

    /** The page as first rendered: nothing selected, no file, start disabled. */
    constructor ()
      ensures Valid()
      ensures selectedResume == NoSelection && uploadedFile == None && !StartEnabled()
    {
      selectedResume := NoSelection;
      uploadedFile := None;
    }

    /**
     * `handleFileChange`: the first chosen file becomes the upload and the
     * selection; an empty choice (the dialog cancelled) changes nothing.
     */
    method ChooseFile(files: seq<File>)
      requires Valid()
      modifies this
      ensures Valid()
      ensures |files| > 0 ==> uploadedFile == Some(files[0]) && selectedResume == NewUpload
      ensures |files| == 0 ==> uploadedFile == old(uploadedFile) && selectedResume == old(selectedResume)
      ensures old(StartEnabled()) ==> StartEnabled()
    {
      if |files| > 0 {
        var file := files[0];
        uploadedFile := Some(file);
        selectedResume := NewUpload;
      }
    }

    /**
     * A click on stored resume `k`: it becomes the selection and any chosen
     * file is dropped.  The new state does not depend on the old one, so a
     * repeated click changes nothing further.
     */
    method SelectExisting(k: nat)
      requires Valid() && 1 <= k <= 3
      modifies this
      ensures Valid() && StartEnabled()
      ensures selectedResume == Existing(k) && uploadedFile == None
    {
      selectedResume := Existing(k);
      uploadedFile := None;
    }
  }

  /**
   * Any sequence of clicks and file choices keeps the invariant; once start is
   * enabled it stays enabled; clicking the same stored resume twice leaves
   * the state of a single click.
   */
  method ClickSequence(page: Page, k: nat, files: seq<File>)
    requires page.Valid() && 1 <= k <= 3
    modifies page
    ensures page.Valid() && page.StartEnabled()
    ensures |files| == 0 ==> page.selectedResume == Existing(k) && page.uploadedFile == None
  {
    page.SelectExisting(k);
    var selected, file := page.selectedResume, page.uploadedFile;
    page.SelectExisting(k);
    assert page.selectedResume == selected && page.uploadedFile == file;
    page.ChooseFile(files);
  }
}
