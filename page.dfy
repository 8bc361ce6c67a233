/** The host page: it holds the uploaded list as state, replaces it with each
    list the uploader emits, and gives it to the storyboard card. */
module Page {
  import Intake

  class Home {
    var uploadedImages: seq<Intake.FileHandle>

    constructor ()
      ensures uploadedImages == []
    {
      uploadedImages := [];
    }

    /** `handleImagesUpload`: the emitted list replaces the stored one
        wholesale. */
    method HandleImagesUpload(files: seq<Intake.FileHandle>)
      modifies this
      ensures uploadedImages == files
    {
      uploadedImages := files;
    }
  }
}
