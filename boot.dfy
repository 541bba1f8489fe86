/**
 * The page boot sequence (assets/js/typing.js): `runSequence` shows the busy indicator for
 * 300 ms on a page already visited and 800 ms otherwise, then either reveals the content at
 * once or types the greeting one character per 30 ms tick, and on a first visit records
 * the visit. Each timer callback is a method here: BusyElapsed for the busy timeout and
 * TypeTick for one typing tick; the browser's event loop is the caller.
 */
module Boot {
  import opened Wrappers
  import opened Visits
  import opened Spinner

  /** The busy time of a page already visited, and of a first visit. */
  const RevisitBusy := 300
  const FirstVisitBusy := 800

  /** `attr || fallback`: an attribute counts when it is present and not empty. */
  function OrDefault(attr: Option<string>, fallback: string): (r: string)
    ensures attr.Some? && attr.value != [] ==> r == attr.value
    ensures (attr.None? || attr.value == []) ==> r == fallback
  {
    if attr.Some? && attr.value != [] then attr.value else fallback
  }

  datatype Phase =
    | Idle          // runSequence has not run
    | Inactive      // runSequence returned at once: the page has no `#ai-response`
    | Busy(ms: nat) // the busy timeout of `ms` milliseconds is pending
    | Typing        // a typing tick is pending
    | Done          // the sequence has finished

  /** The elements runSequence touches and the sequence's progress. */
  class Sequence {
    /** Whether `#ai-response`, `#ai-greeting` and `#ai-content` exist. */
    const hasResponse: bool
    const hasGreeting: bool
    const hasContent: bool
    /** The `data-page-id` and `data-greeting` attributes, and `window.location.pathname`. */
    const pageIdAttr: Option<string>
    const greetingAttr: Option<string>
    const pathname: string
    /** `window.AgentSpinner`, null when the spinner script found no element. */
    const spinner: Spinner?
    const storage: Storage

    var phase: Phase
    var pageId: string
    var greeting: string
    var alreadyVisited: bool
    /** The `ai-response--hidden` class. */
    var responseHidden: bool
    /** `#ai-content`: the fade-in class, and the inline `opacity: 0`. */
    var contentFaded: bool
    var contentTransparent: bool
    /** `#ai-greeting`: its text and the `ai-greeting--typing` class. */
    var greetingText: string
    var typingClass: bool
    /** The `i` of typeText: characters typed so far. */
    var typed: nat
    /** How often markVisited and scrollToBottom have been called. */
    var marks: nat
    var scrolls: nat

    predicate Valid()
      reads this, spinner
    {
      && (spinner != null ==> spinner.Valid())
      && marks <= 1
      && (phase.Idle? || phase.Inactive? || phase.Busy? || phase.Typing? ==> marks == 0)
      && (phase.Done? ==> marks == if alreadyVisited then 0 else 1)
      && (phase.Busy? ==> phase.ms == if alreadyVisited then RevisitBusy else FirstVisitBusy)
      && (phase.Typing? ==>
            && !alreadyVisited && hasGreeting && greeting != []
            && typed <= |greeting| && greetingText == greeting[..typed]
            && typingClass && (hasContent ==> contentTransparent))
    }

    constructor(hasResponse: bool, hasGreeting: bool, hasContent: bool,
                pageIdAttr: Option<string>, greetingAttr: Option<string>, pathname: string,
                spinner: Spinner?, storage: Storage, greetingText: string,
                responseHidden: bool, contentFaded: bool, contentTransparent: bool, typingClass: bool)
      requires spinner != null ==> spinner.Valid()
      ensures Valid() && phase.Idle? && fresh(this)
      ensures this.hasResponse == hasResponse && this.hasGreeting == hasGreeting && this.hasContent == hasContent
      ensures this.pageIdAttr == pageIdAttr && this.greetingAttr == greetingAttr && this.pathname == pathname
      ensures this.spinner == spinner && this.storage == storage && this.greetingText == greetingText
      ensures this.responseHidden == responseHidden && this.contentFaded == contentFaded
      ensures this.contentTransparent == contentTransparent && this.typingClass == typingClass
      ensures marks == 0 && scrolls == 0
    {
      this.hasResponse := hasResponse;
      this.hasGreeting := hasGreeting;
      this.hasContent := hasContent;
      this.pageIdAttr := pageIdAttr;
      this.greetingAttr := greetingAttr;
      this.pathname := pathname;
      this.spinner := spinner;
      this.storage := storage;
      this.greetingText := greetingText;
      phase := Idle;
      pageId := [];
      greeting := [];
      alreadyVisited := false;
      this.responseHidden := responseHidden;
      this.contentFaded := contentFaded;
      this.contentTransparent := contentTransparent;
      this.typingClass := typingClass;
      typed := 0;
      marks := 0;
      scrolls := 0;
    }

    /**
     * `runSequence()` up to the busy timeout: without `#ai-response` nothing happens;
     * otherwise the page id and greeting are read, the visit is looked up, the spinner is
     * started and the timeout is set to 300 or 800 ms.
     */
    method Run()
      requires Valid() && phase.Idle?
      modifies this`phase, this`pageId, this`greeting, this`alreadyVisited, spinner
      ensures Valid()
      ensures !hasResponse ==>
        && phase.Inactive? && pageId == old(pageId) && greeting == old(greeting)
        && alreadyVisited == old(alreadyVisited)
        && (spinner != null ==> spinner.Snapshot() == old(spinner.Snapshot()))
      ensures hasResponse ==>
        && pageId == OrDefault(pageIdAttr, pathname)
        && greeting == OrDefault(greetingAttr, [])
        && alreadyVisited == Visited(storage.readable, storage.blob, pageId)
        && phase == Busy(if alreadyVisited then RevisitBusy else FirstVisitBusy)
        && (spinner != null ==> spinner.Snapshot() == Started(old(spinner.Snapshot())))
    {
      if !hasResponse {
        phase := Inactive;
        return;
      }
      pageId := OrDefault(pageIdAttr, pathname);
      greeting := OrDefault(greetingAttr, []);
      alreadyVisited := Visited(storage.readable, storage.blob, pageId);
      if spinner != null {
        spinner.Start();
      }
      phase := Busy(if alreadyVisited then RevisitBusy else FirstVisitBusy);
    }

    /**
     * The busy timeout: the spinner stops and the response is shown. A visited page fades its
     * content in; a first visit with a greeting element and a greeting starts typing (its
     * first tick runs at once); any other first visit fades in and is recorded at once.
     */
    method BusyElapsed()
      requires Valid() && phase.Busy?
      modifies this`responseHidden, this`contentFaded, this`contentTransparent, this`greetingText
      modifies this`typingClass, this`typed, this`marks, this`scrolls, this`phase, spinner, storage
      ensures Valid()
      ensures !responseHidden
      ensures spinner != null ==> spinner.Snapshot() == Stopped(old(spinner.Snapshot()))
      ensures alreadyVisited ==>
        && phase.Done? && contentFaded == (hasContent || old(contentFaded)) && scrolls == old(scrolls) + 1
        && contentTransparent == old(contentTransparent) && greetingText == old(greetingText)
        && typingClass == old(typingClass) && typed == old(typed)
        && marks == old(marks) && storage.blob == old(storage.blob)
      ensures !alreadyVisited && hasGreeting && greeting != [] ==>
        && phase.Typing? && typed == 1 && greetingText == greeting[..1] && typingClass
        && contentTransparent == (hasContent || old(contentTransparent))
        && contentFaded == old(contentFaded) && scrolls == old(scrolls)
        && marks == old(marks) && storage.blob == old(storage.blob)
      ensures !alreadyVisited && !(hasGreeting && greeting != []) ==>
        && phase.Done? && contentFaded == (hasContent || old(contentFaded)) && scrolls == old(scrolls) + 1
        && contentTransparent == old(contentTransparent) && greetingText == old(greetingText)
        && typingClass == old(typingClass) && typed == old(typed)
        && marks == old(marks) + 1
        && storage.blob == Marked(storage.readable, storage.writable, old(storage.blob), pageId)
    {
      if spinner != null {
        spinner.Stop();
      }
      responseHidden := false;
      if alreadyVisited {
        Reveal();
        phase := Done;
      } else if hasGreeting && greeting != [] {
        if hasContent {
          contentTransparent := true;
        }
        greetingText := [];
        typingClass := true;
        typed := 0;
        phase := Typing;
        TypeTick();
      } else {
        Reveal();
        Record();
        phase := Done;
      }
    }

    /**
     * One tick of typeText: the next character is appended, or, once all are typed, the
     * typing class goes, the content fades in and the callback records the visit.
     */
    method TypeTick()
      requires Valid() && phase.Typing?
      modifies this`greetingText, this`typed, this`typingClass, this`contentTransparent
      modifies this`contentFaded, this`scrolls, this`marks, this`phase, storage
      ensures Valid()
      ensures old(typed) < |greeting| ==>
        && phase.Typing? && typed == old(typed) + 1
        && greetingText == old(greetingText) + [greeting[old(typed)]]
        && typingClass == old(typingClass) && contentTransparent == old(contentTransparent)
        && contentFaded == old(contentFaded) && scrolls == old(scrolls)
        && marks == old(marks) && storage.blob == old(storage.blob)
      ensures old(typed) == |greeting| ==>
        && phase.Done? && !typingClass && typed == |greeting| && greetingText == greeting
        && contentTransparent == (old(contentTransparent) && !hasContent)
        && contentFaded == (hasContent || old(contentFaded)) && scrolls == old(scrolls) + 1
        && marks == old(marks) + 1
        && storage.blob == Marked(storage.readable, storage.writable, old(storage.blob), pageId)
    {
      if typed < |greeting| {
        greetingText := greetingText + [greeting[typed]];
        typed := typed + 1;
        assert greetingText == greeting[..typed];
      } else {
        typingClass := false;
        if hasContent {
          contentTransparent := false;
        }
        Reveal();
        Record();
        phase := Done;
      }
    }

    /** The content fades in (when there is a content element) and scrollToBottom runs. */
    method Reveal()
      modifies this`contentFaded, this`scrolls
      ensures contentFaded == (hasContent || old(contentFaded)) && scrolls == old(scrolls) + 1
    {
      if hasContent {
        contentFaded := true;
      }
      scrolls := scrolls + 1;
    }

    /** `markVisited(pageId)`, counted. */
    method Record()
      modifies this`marks, storage
      ensures marks == old(marks) + 1
      ensures storage.blob == Marked(storage.readable, storage.writable, old(storage.blob), pageId)
    {
      storage.MarkVisited(pageId);
      marks := marks + 1;
    }
  }

  /**
   * The whole sequence, with every pending timer run in turn: it ends with the greeting
   * typed out in full when there is one to type, and a first visit recorded exactly once.
   */
  method RunToEnd(s: Sequence)
    requires s.Valid() && s.phase.Idle?
    modifies s, s.spinner, s.storage
    ensures s.Valid()
    ensures s.hasResponse <==> s.phase.Done?
    ensures s.phase.Done? ==> !s.responseHidden && s.marks == (if s.alreadyVisited then 0 else 1)
    ensures s.phase.Done? && !s.alreadyVisited && s.hasGreeting && s.greeting != [] ==>
      s.greetingText == s.greeting
    ensures s.phase.Done? && !s.alreadyVisited ==>
      CanMark(s.storage.readable, s.storage.writable, old(s.storage.blob)) ==> Visited(s.storage.readable, s.storage.blob, s.pageId)
  {
    s.Run();
    if s.phase.Inactive? {
      return;
    }
    var before := s.storage.blob;
    s.BusyElapsed();
    while s.phase.Typing?
      invariant s.Valid()
      invariant s.phase.Typing? || s.phase.Done?
      invariant !s.responseHidden
      invariant s.phase.Typing? ==> s.storage.blob == before
      invariant s.phase.Done? && !s.alreadyVisited ==>
        s.storage.blob == Marked(s.storage.readable, s.storage.writable, before, s.pageId)
      invariant s.phase.Done? && !s.alreadyVisited && s.hasGreeting && s.greeting != [] ==>
        s.greetingText == s.greeting
      decreases (if s.phase.Typing? then 1 else 0) + |s.greeting| - s.typed
    {
      s.TypeTick();
    }
    if !s.alreadyVisited && CanMark(s.storage.readable, s.storage.writable, before) {
      MarkThenVisited(s.storage.readable, s.storage.writable, before, s.pageId);
    }
  }
}
