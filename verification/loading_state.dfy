/**
  The progress record that ingestion writes and the loading panel polls.
  The atomics of the original are plain fields here: each update is one step.
*/
module Loading {
  class LoadingState {
    var isLoading: bool
    var isComplete: bool
    var documentsLoaded: nat
    var fileSizeBytes: nat
    var statusMessage: string
    var errorMessage: string

    /** Every field holds its initial value. */
    predicate IsCleared()
      reads this
    {
      && !isLoading
      && !isComplete
      && documentsLoaded == 0
      && fileSizeBytes == 0
      && statusMessage == ""
      && errorMessage == ""
    }

    /** A freshly constructed state is already in the cleared state. */
    constructor ()
      ensures IsCleared()
    {
      isLoading := false;
      isComplete := false;
      documentsLoaded := 0;
      fileSizeBytes := 0;
      statusMessage := "";
      errorMessage := "";
    }

    /**
      Clears every field. The result is the constructor's state whatever the
      state before, so a second reset changes nothing.
    */
    method Reset()
      modifies this
      ensures IsCleared()
      ensures old(IsCleared()) ==> unchanged(this)
    {
      isLoading := false;
      isComplete := false;
      documentsLoaded := 0;
      fileSizeBytes := 0;
      statusMessage := "";
      errorMessage := "";
    }
  }
}
