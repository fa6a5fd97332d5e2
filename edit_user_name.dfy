// The profile page's inline name editor: a displayed name, an edit buffer, and a submit
// that trims the buffer, refuses a blank name and otherwise replaces the displayed name.

module Profile {
  import opened Text

  const DefaultName := "Ayush Upadhyay"
  const NameEmpty := "Name cannot be empty"
  const UpdateFailed := "Failed to update name"

  /** How the asynchronous part of a submit ends, an input to the model. The 500 ms delay
      always resolves, so `DelayFailed` stands for a throw after it and before the name is set
      (the success toast is the call that sits there); `CallbackFailed` is the parent's
      `onUpdate` callback throwing after the name is set. */
  datatype SubmitOutcome = Completed | DelayFailed | CallbackFailed

  /** A name as the editor shows it: not blank and without surrounding whitespace. */
  predicate IsCleanName(s: string) {
    s != [] && Trim(s) == s
  }

  lemma DefaultNameIsClean()
    ensures IsCleanName(DefaultName)
  {
    TrimOfTrimmed(DefaultName);
  }

  /** Whatever the buffer holds, the submitted name is clean once the blank case is refused. */
  lemma TrimmedInputIsClean(s: string)
    requires Trim(s) != []
    ensures IsCleanName(Trim(s))
    ensures !AllWhitespace(s)
  {
    TrimIdempotent(s);
    TrimShape(s);
  }

  class EditUserName {
    var value: string
    var isEditing: bool
    var inputValue: string
    var isLoading: bool
    var error: string
    /** The names handed to the parent's `onUpdate`, oldest first. */
    var notified: seq<string>
    /** Whether the parent passed an `onUpdate` callback. */
    const hasOnUpdate: bool

    /** Between events nothing is loading, and the displayed name is clean. */
    ghost predicate Valid()
      reads this
    {
      !isLoading && IsCleanName(value)
    }

    constructor(hasOnUpdate: bool)
      ensures Valid()
      ensures value == DefaultName && inputValue == DefaultName
      ensures !isEditing && !isLoading && error == "" && notified == []
      ensures this.hasOnUpdate == hasOnUpdate
    {
      value := DefaultName;
      isEditing := false;
      inputValue := DefaultName;
      isLoading := false;
      error := "";
      notified := [];
      this.hasOnUpdate := hasOnUpdate;
      DefaultNameIsClean();
    }

    /** The pencil and cancel buttons: flip edit mode and clear the error. The effect that
        watches `isEditing` then copies the displayed name into the buffer on entry. Cancelling
        never touches the displayed name. */
    method HandleEditToggle()
      requires Valid()
      modifies this
      ensures Valid()
      ensures isEditing == !old(isEditing) && error == ""
      ensures inputValue == if isEditing then value else old(inputValue)
      ensures value == old(value) && notified == old(notified) && isLoading == old(isLoading)
    {
      isEditing := !isEditing;
      error := "";
      EditEntryEffect();
    }

    /** The effect on `[isEditing, value]`: in edit mode the buffer restarts from the name. */
    method EditEntryEffect()
      modifies this
      ensures inputValue == if isEditing then value else old(inputValue)
      ensures value == old(value) && isEditing == old(isEditing) && error == old(error)
      ensures isLoading == old(isLoading) && notified == old(notified)
    {
      if isEditing {
        inputValue := value;
      }
    }

    /** Typing: the buffer takes the new text and the error clears; the name stays. */
    method HandleInputChange(newValue: string)
      requires Valid()
      modifies this
      ensures Valid()
      ensures inputValue == newValue && error == ""
      ensures value == old(value) && isEditing == old(isEditing)
      ensures isLoading == old(isLoading) && notified == old(notified)
    {
      inputValue := newValue;
      error := "";
    }

    /** `handleSubmit`. A buffer that trims to nothing only sets the error. Otherwise loading
        starts and the error clears; on completion the name becomes the trimmed buffer, edit
        mode ends and the parent hears the new name; a throw before the name is set leaves the
        name and sets the failure message; a throwing callback does so after the name is already set.
        Loading always ends. */
    method HandleSubmit(outcome: SubmitOutcome)
      requires Valid()
      modifies this
      ensures Valid()
      ensures inputValue == old(inputValue) && !isLoading
      ensures Trim(old(inputValue)) == [] ==>
                && error == NameEmpty
                && value == old(value) && isEditing == old(isEditing) && notified == old(notified)
      ensures Trim(old(inputValue)) != [] && outcome == DelayFailed ==>
                && error == UpdateFailed
                && value == old(value) && isEditing == old(isEditing) && notified == old(notified)
      ensures Trim(old(inputValue)) != [] && outcome != DelayFailed ==>
                && value == Trim(old(inputValue)) && !isEditing
                && notified == old(notified) + (if hasOnUpdate then [value] else [])
                && error == (if hasOnUpdate && outcome == CallbackFailed then UpdateFailed else "")
    {
      var trimmedValue := Trim(inputValue);
      if trimmedValue == [] {
        error := NameEmpty;
        return;
      }
      TrimmedInputIsClean(inputValue);
      isLoading := true;
      error := "";
      if outcome == DelayFailed {
        error := UpdateFailed;
      } else {
        value := trimmedValue;
        // Edit mode is now off, so the effect on the new name leaves the buffer alone.
        isEditing := false;
        if hasOnUpdate {
          notified := notified + [trimmedValue];
          if outcome == CallbackFailed {
            error := UpdateFailed;
          }
        }
      }
      isLoading := false;
    }

    /** The check button is enabled only when nothing is loading and the buffer holds more
        than whitespace. */
    function SubmitEnabled(): (enabled: bool)
      reads this
      ensures enabled <==> !isLoading && !AllWhitespace(inputValue)
    {
      TrimShape(inputValue);
      !isLoading && Trim(inputValue) != []
    }
  }
}
