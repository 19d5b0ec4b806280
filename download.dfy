/** The simulated download of the listing page: a click on a `.download-link`
    opens the modal and starts an interval that adds a random step of 5 to 14
    to the progress every 200 ms; at 100 the interval is cleared and the
    download button appears. Closing, cancelling or clicking the backdrop
    removes the modal's `active` class and clears the interval.

    The random step is the parameter `roll`, the value of
    `Math.floor(Math.random() * 10)`, so any roll in 0..9 may come. */
module Download {
  import opened Dom

  /** Milliseconds between two ticks of the interval. */
  const TickMs: nat := 200

  /** A value `Math.floor(Math.random() * 10)` can take. */
  predicate IsRoll(roll: nat) {
    roll < 10
  }

  predicate AllRolls(rolls: seq<nat>) {
    forall k :: 0 <= k < |rolls| ==> IsRoll(rolls[k])
  }

  function Min(a: int, b: int): int {
    if a <= b then a else b
  }

  /** One tick: `progress += roll + 5`, clamped at 100. */
  function Advance(progress: nat, roll: nat): (r: nat)
    requires progress < 100 && IsRoll(roll)
    ensures progress < r <= 100
    ensures progress + 5 <= r || r == 100
    ensures r <= progress + 14
    ensures r == 100 <==> progress + roll + 5 >= 100
  {
    var p := progress + roll + 5;
    if p >= 100 then 100 else p
  }

  /** The progress once the interval has fired for each roll in turn, or has been cleared at 100. */
  function Run(progress: nat, rolls: seq<nat>): nat
    requires progress <= 100 && AllRolls(rolls)
    decreases |rolls|
  {
    if progress == 100 || rolls == [] then progress
    else Run(Advance(progress, rolls[0]), rolls[1..])
  }

  /** How many of the rolls are used: the interval stops firing once progress is 100. */
  function Ticks(progress: nat, rolls: seq<nat>): nat
    requires progress <= 100 && AllRolls(rolls)
    decreases |rolls|
  {
    if progress == 100 || rolls == [] then 0
    else 1 + Ticks(Advance(progress, rolls[0]), rolls[1..])
  }

  /** Progress never passes 100, and every tick that fires adds at least 5 and at most 14. */
  lemma {:induction false} RunBounds(progress: nat, rolls: seq<nat>)
    requires progress <= 100 && AllRolls(rolls)
    ensures progress <= Run(progress, rolls) <= 100
    ensures Run(progress, rolls) >= Min(100, progress + 5 * Ticks(progress, rolls))
    ensures Run(progress, rolls) <= progress + 14 * Ticks(progress, rolls)
    ensures Ticks(progress, rolls) <= |rolls|
    ensures Ticks(progress, rolls) < |rolls| ==> Run(progress, rolls) == 100
    ensures Ticks(progress, rolls) > 0 ==> progress + 5 * (Ticks(progress, rolls) - 1) < 100
    decreases |rolls|
  {
    if progress < 100 && rolls != [] {
      RunBounds(Advance(progress, rolls[0]), rolls[1..]);
    }
  }

  /** Whatever the rolls, twenty ticks take a download from 0 to exactly 100, and
      the interval is never asked for more than twenty. */
  lemma CompletesWithinTwentyTicks(rolls: seq<nat>)
    requires AllRolls(rolls)
    ensures Ticks(0, rolls) <= 20
    ensures |rolls| >= 20 ==> Run(0, rolls) == 100
  {
    RunBounds(0, rolls);
  }

  /** No roll sequence finishes a download in fewer than eight ticks. */
  lemma NeedsAtLeastEightTicks(rolls: seq<nat>)
    requires AllRolls(rolls)
    requires Run(0, rolls) == 100
    ensures Ticks(0, rolls) >= 8
  {
    RunBounds(0, rolls);
  }

  /** The `data-title` and `data-filename` attributes of the clicked link (`currentDownload`). */
  datatype Request = Request(title: Option<string>, filename: Option<string>)

  /** `downloadBtn.onclick`: none yet, or the save of a fabricated file with this name. */
  datatype SaveHandler = NoHandler | SaveAs(filename: Option<string>)

  function StartingText(filename: Option<string>): string {
    "Preparando \"" + AttrText(filename) + "\" para download..."
  }

  function ReadyText(filename: Option<string>): string {
    "\"" + AttrText(filename) + "\" está pronto para download!"
  }

  /** The modal and the variables the page script keeps for it. */
  class DownloadModal {
    var modalActive: bool        // `downloadModal` carries class `active`
    var titleText: string        // `modalTitle.textContent`
    var descriptionText: string  // `modalDescription.textContent`
    var buttonShown: bool        // `downloadBtn.style.display` is `block`
    var barWidth: nat            // `downloadProgress.style.width`, in percent
    var progress: nat            // the running download's `progress`
    var timerSet: bool           // `downloadTimer` is not null
    var ticking: bool            // the interval is scheduled
    var saveHandler: SaveHandler // `downloadBtn.onclick`
    var current: Option<Request> // `currentDownload`

    /** Once a download has started, the bar shows the progress and the button
        shows exactly when it is complete; the interval runs only while the modal
        is open and the progress is below 100. */
    ghost predicate Valid()
      reads this
    {
      progress <= 100
      && (ticking ==> timerSet && modalActive && progress < 100 && current.Some?)
      && (current.Some? ==> barWidth == progress && (buttonShown <==> progress == 100))
      && (current.Some? && progress == 100 ==> saveHandler == SaveAs(current.value.filename))
    }

    /** The modal as the markup leaves it, before any download. */
    constructor (active: bool, title: string, description: string, shown: bool, width: nat)
      ensures Valid()
      ensures modalActive == active && titleText == title && descriptionText == description
      ensures buttonShown == shown && barWidth == width
      ensures !timerSet && !ticking && saveHandler == NoHandler && current == None
    {
      modalActive, titleText, descriptionText := active, title, description;
      buttonShown, barWidth, progress := shown, width, 0;
      timerSet, ticking, saveHandler, current := false, false, NoHandler, None;
    }

    /** A click on a `.download-link`: record `currentDownload` and run `simulateDownload`. */
    method StartDownload(title: Option<string>, filename: Option<string>)
      requires Valid() && !ticking
      modifies this
      ensures Valid()
      ensures current == Some(Request(title, filename))
      ensures titleText == "Baixando: " + AttrText(title) && descriptionText == StartingText(filename)
      ensures modalActive && !buttonShown && progress == 0 && barWidth == 0
      ensures timerSet && ticking && saveHandler == old(saveHandler)
    {
      current := Some(Request(title, filename));
      titleText := "Baixando: " + AttrText(title);
      descriptionText := StartingText(filename);
      buttonShown := false;
      modalActive := true;
      progress := 0;
      barWidth := 0;
      timerSet, ticking := true, true;
    }

    /** One firing of the interval, with `roll` as the random draw. */
    method Tick(roll: nat)
      requires Valid() && ticking && IsRoll(roll)
      modifies this
      ensures Valid() && current == old(current) && current.Some?
      ensures progress == Advance(old(progress), roll) && barWidth == progress
      ensures ticking <==> progress < 100
      ensures buttonShown <==> progress == 100
      ensures progress == 100 ==> descriptionText == ReadyText(current.value.filename)
      ensures progress < 100 ==> descriptionText == old(descriptionText)
      ensures progress < 100 ==> saveHandler == old(saveHandler)
      ensures modalActive && timerSet && titleText == old(titleText)
    {
      progress := progress + roll + 5;
      if progress >= 100 {
        progress := 100;
        ticking := false;
        descriptionText := ReadyText(current.value.filename);
        buttonShown := true;
        saveHandler := SaveAs(current.value.filename);
      }
      barWidth := progress;
    }

    /** `closeModal` or `cancelBtn` clicked: the modal closes and the interval is cleared. */
    method Dismiss()
      requires Valid()
      modifies this
      ensures Valid()
      ensures !modalActive && !ticking
      ensures progress == old(progress) && barWidth == old(barWidth) && buttonShown == old(buttonShown)
      ensures titleText == old(titleText) && descriptionText == old(descriptionText)
      ensures timerSet == old(timerSet) && saveHandler == old(saveHandler) && current == old(current)
    {
      modalActive := false;
      if timerSet {
        ticking := false;
      }
    }

    /** A click inside the modal: only a click on the backdrop itself closes it. */
    method ModalClicked(onBackdrop: bool)
      requires Valid()
      modifies this
      ensures Valid()
      ensures onBackdrop ==> !modalActive && !ticking
      ensures !onBackdrop ==> modalActive == old(modalActive) && ticking == old(ticking)
      ensures progress == old(progress) && barWidth == old(barWidth) && buttonShown == old(buttonShown)
      ensures titleText == old(titleText) && descriptionText == old(descriptionText)
      ensures timerSet == old(timerSet) && saveHandler == old(saveHandler) && current == old(current)
    {
      if onBackdrop {
        Dismiss();
      }
    }

    /** A click on the visible download button: with a handler installed, the
        fabricated file is saved and, 100 ms later, the modal closes. */
    method SaveClicked()
      requires Valid() && buttonShown
      modifies this
      ensures Valid()
      ensures modalActive == (old(modalActive) && saveHandler.NoHandler?)
      ensures ticking == old(ticking) && progress == old(progress) && saveHandler == old(saveHandler)
      ensures barWidth == old(barWidth) && buttonShown == old(buttonShown)
      ensures titleText == old(titleText) && descriptionText == old(descriptionText)
      ensures timerSet == old(timerSet) && current == old(current)
    {
      if saveHandler.SaveAs? {
        modalActive := false;
      }
    }
  }
}
