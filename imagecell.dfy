/** The progressive image cell of every list row: a placeholder until the
    first load-end event, then the remote image, or the warning image once
    a load error has been seen. */
module ImageCell {
  import opened Wrappers

  /** The image the cell shows: the bundled placeholder, the bundled
      warning image, or the remote one (whose address may be undefined). */
  datatype Source = Placeholder | WarningImage | Remote(uri: Option<string>)

  /** The two state flags of the cell. */
  datatype Flags = Flags(showDefault: bool, error: bool)

  /** The flags a new cell starts with. */
  const Initial := Flags(true, false)

  /** The two events the image reports. */
  datatype Event = LoadEnd | LoadError

  /** The source a render chooses from the flags and the address. */
  function ChooseSource(f: Flags, uri: Option<string>): (r: Source)
    ensures r == Placeholder <==> f.showDefault
    ensures r == WarningImage <==> !f.showDefault && f.error
    ensures r.Remote? <==> !f.showDefault && !f.error
    ensures r.Remote? ==> r.uri == uri
  {
    if f.showDefault then Placeholder else if f.error then WarningImage else Remote(uri)
  }

  /** The handlers: load-end clears `showDefault`, an error sets `error`. */
  function Step(f: Flags, e: Event): (r: Flags)
    ensures r.showDefault == (f.showDefault && e != LoadEnd)
    ensures r.error == (f.error || e == LoadError)
  {
    match e
    case LoadEnd => Flags(false, f.error)
    case LoadError => Flags(f.showDefault, true)
  }

  /** The flags after the events `es`, in order: `showDefault` is still
      set exactly when it was set and no load-end came; `error` is set
      exactly when it was set or an error came. So `showDefault` only goes
      from true to false and `error` only from false to true. */
  function Run(f: Flags, es: seq<Event>): (r: Flags)
    ensures r.showDefault == (f.showDefault && LoadEnd !in es)
    ensures r.error == (f.error || LoadError in es)
    decreases |es|
  {
    if es == [] then f
    else
      assert es == [es[0]] + es[1..];
      Run(Step(f, es[0]), es[1..])
  }

  lemma {:induction false} RunAppend(f: Flags, es: seq<Event>, more: seq<Event>)
    ensures Run(f, es + more) == Run(Run(f, es), more)
    decreases |es|
  {
    if es == [] {
      assert es + more == more;
    } else {
      assert (es + more)[1..] == es[1..] + more;
      RunAppend(Step(f, es[0]), es[1..], more);
    }
  }

  /** The position of a source in the only order the cell can go through:
      placeholder, then remote, then warning. */
  function Rank(s: Source): (n: nat)
  {
    match s
    case Placeholder => 0
    case Remote(_) => 1
    case WarningImage => 2
  }

  /** Later events never take the cell back to an earlier source, whatever
      address each render passes: the sources shown form a run of
      placeholders, then a run of remote images, then a run of warnings. */
  lemma NeverGoesBack(f: Flags, es: seq<Event>, more: seq<Event>, uri1: Option<string>, uri2: Option<string>)
    ensures Rank(ChooseSource(Run(f, es), uri1)) <= Rank(ChooseSource(Run(f, es + more), uri2))
  {
    RunAppend(f, es, more);
  }

  /** A cell that has seen a load end and an error shows the warning image
      for good: a new address does not re-arm it. */
  lemma ErrorIsFinal(es: seq<Event>, uri: Option<string>)
    requires LoadEnd in es && LoadError in es
    ensures ChooseSource(Run(Initial, es), uri) == WarningImage
  {
  }

  /** A cell that has seen a load end and no error shows the address it is
      rendered with. */
  lemma LoadedShowsRemote(es: seq<Event>, uri: Option<string>)
    requires LoadEnd in es && LoadError !in es
    ensures ChooseSource(Run(Initial, es), uri) == Remote(uri)
  {
  }

  /** One mounted image cell. */
  class ProgressiveImage {
    var showDefault: bool
    var error: bool
    /** The address of the current render's props. */
    var uri: Option<string>

    function FlagState(): (f: Flags)
      reads this
    {
      Flags(showDefault, error)
    }

    /** The image the current render shows. */
    function Shown(): (s: Source)
      reads this
    {
      ChooseSource(FlagState(), uri)
    }

    constructor (uri: Option<string>)
      ensures FlagState() == Initial && this.uri == uri
      ensures Shown() == Placeholder
    {
      showDefault := true;
      error := false;
      this.uri := uri;
    }

    method OnLoadEnd()
      modifies this
      ensures FlagState() == Step(old(FlagState()), LoadEnd)
      ensures uri == old(uri)
    {
      showDefault := false;
    }

    method OnError()
      modifies this
      ensures FlagState() == Step(old(FlagState()), LoadError)
      ensures uri == old(uri)
    {
      error := true;
    }

    /** A new render with new props: the flags are kept. */
    method Rerender(uri: Option<string>)
      modifies this
      ensures FlagState() == old(FlagState()) && this.uri == uri
    {
      this.uri := uri;
    }
  }
}
