/** The passphrase generator component: its state, created at page load,
    and the three messages that change it (words fetched, fetch failed,
    generate pressed). Clock readings are passed in as `now`; the hash of the
    seed text, the seeding of the generator and its draws are passed in as
    one function `stream` from the seed text to the draws. */
module Home {
  import opened Text
  import opened Passphrase

  datatype Option<T> = None | Some(value: T)

  /** Whole milliseconds since the epoch, as the browser clock reports them. */
  type Time = int

  class PasswdGen {
    var passwd: Option<string>
    var siteLoadTime: Option<Time>
    var buttonPressTime: Option<Time>
    var deltaFetch: Option<Time>
    var words: Option<seq<string>>
    var hash: Option<string>

    /** What holds from creation on: the load time is always known, the
        fetch delay is known exactly when the word list is, and a passphrase
        is only shown together with the press time and fetch delay that the
        view prints beside it. */
    ghost predicate Valid()
      reads this
    {
      && siteLoadTime.Some?
      && hash.None?
      && (deltaFetch.Some? <==> words.Some?)
      && (passwd.Some? ==> buttonPressTime.Some? && deltaFetch.Some?)
    }

    /** All that generating a passphrase unwraps is present, and the word
        list reaches past the reserved prefix. */
    predicate CanGenerate()
      reads this
    {
      siteLoadTime.Some? && deltaFetch.Some? && words.Some? && |words.value| > Reserved
    }

    /** The component at page load: only the load time is known. */
    constructor (now: Time)
      ensures Valid()
      ensures siteLoadTime == Some(now)
      ensures passwd == None && buttonPressTime == None && deltaFetch == None
      ensures words == None && hash == None
      ensures !CanGenerate()
    {
      passwd := None;
      siteLoadTime := Some(now);
      buttonPressTime := None;
      deltaFetch := None;
      words := None;
      hash := None;
    }

    /** The button was pressed at `now`: the seed text is built from the
        press time, the load time and the fetch delay, and the draws it
        yields assemble the new passphrase. */
    method CreatePasswd(now: Time, stream: string -> seq<nat>) returns (render: bool)
      requires Valid() && CanGenerate()
      requires WellRanged(stream(Seed(now, siteLoadTime.value, deltaFetch.value)), |words.value| - Reserved)
      modifies this
      ensures siteLoadTime == old(siteLoadTime) && deltaFetch == old(deltaFetch)
      ensures words == old(words) && hash == old(hash)
      ensures Valid() && CanGenerate()
      ensures buttonPressTime == Some(now)
      ensures passwd == Some(Assemble(words.value, stream(Seed(now, siteLoadTime.value, deltaFetch.value))))
      ensures render
    {
      var loadTime, delta, wordList := siteLoadTime.value, deltaFetch.value, words.value;
      buttonPressTime := Some(now);
      var seed := Seed(buttonPressTime.value, loadTime, delta);
      var pw := BuildPasswd(wordList, stream(seed));
      passwd := Some(pw);
      render := true;
    }

    /** The word list arrived at `now`: the fetch delay is measured from the
        load time and the body is split into lines. */
    method GetWordsSuccess(now: Time, body: string) returns (render: bool)
      requires Valid()
      modifies this
      ensures Valid()
      ensures deltaFetch == Some(now - siteLoadTime.value)
      ensures words == Some(Lines(body))
      ensures CanGenerate() <==> |Lines(body)| > Reserved
      ensures passwd == old(passwd) && siteLoadTime == old(siteLoadTime)
      ensures buttonPressTime == old(buttonPressTime) && hash == old(hash)
      ensures render
    {
      if siteLoadTime.Some? {
        deltaFetch := Some(now - siteLoadTime.value);
      }
      words := Some(Lines(body));
      render := true;
    }

    /** The fetch failed: nothing changes and nothing is re-rendered. */
    method GetWordsError() returns (render: bool)
      ensures !render
    {
      render := false;
    }
  }

  /** A session: loaded at 100, words arrived at 150, button pressed at 200.
      The seed text is "200" + "100" + "50", and the passphrase conforms. */
  method Session(body: string, stream: string -> seq<nat>) returns (pw: string)
    requires |Lines(body)| > Reserved
    requires WellRanged(stream("20010050"), |Lines(body)| - Reserved)
    ensures pw == Assemble(Lines(body), stream("20010050"))
    ensures Conforms(pw, Lines(body)[Reserved..])
  {
    var gen := new PasswdGen(100);
    var _ := gen.GetWordsSuccess(150, body);
    assert Seed(200, 100, 50) == "20010050";
    var _ := gen.CreatePasswd(200, stream);
    pw := gen.passwd.value;
    AssembleConforms(Lines(body), stream("20010050"));
  }
}
