/** homeassistant-media-toggle.py: for every input line, decide whether a
    camera or microphone token is present, print the verdict and ask Home
    Assistant to turn the on-air light on or off accordingly.

    What the script prints and the requests it sends are modelled as one
    trace of effects in the order the script performs them. */
module MediaToggle {
  import opened Tokens

  const HOMEASSISTANT_BASE_URL := "http://homeassistant.local:8123"
  const SERVICE_PATH := "/api/services/light/turn_"
  const BANNER := "Reading stdin for events"
  const ACTIVE := "Media is active"
  const NOT_ACTIVE := "Media is not active"

  /** A light service call: the action word and the URL it is posted to. */
  datatype Request = Request(action: string, url: string)

  /** One observable effect of the script. */
  datatype Effect = Print(text: string) | Post(request: Request)

  /** The light service call the notifier sends for a flag. */
  function MediaEvent(state: bool): (r: Request)
    ensures r.action == "on" || r.action == "off"
    ensures r.action == "on" <==> state
    ensures StartsWith(r.url, HOMEASSISTANT_BASE_URL + SERVICE_PATH)
    ensures r.url[|HOMEASSISTANT_BASE_URL + SERVICE_PATH|..] == r.action
  {
    var action := if state then "on" else "off";
    Request(action, HOMEASSISTANT_BASE_URL + SERVICE_PATH + action)
  }

  /** The URL alone tells which state was requested. */
  lemma MediaEventUrlDeterminesState(a: bool, b: bool)
    requires MediaEvent(a).url == MediaEvent(b).url
    ensures a == b
  {
    var n := |HOMEASSISTANT_BASE_URL + SERVICE_PATH|;
    assert MediaEvent(a).url[n..] == MediaEvent(b).url[n..];
  }

  /** An item that switches the light on. */
  predicate IsMediaItem(item: string)
    ensures IsMediaItem(item) ==> |item| >= 4
  {
    StartsWith(item, "cam:") || StartsWith(item, "mic:")
  }

  /** An item that starts with neither 'c' nor 'm' is not a media item. */
  lemma NotMediaItemByFirstChar(item: string)
    requires item == [] || (item[0] != 'c' && item[0] != 'm')
    ensures !IsMediaItem(item)
  {
    if |item| >= 4 {
      assert item[..4][0] == item[0];
    }
  }

  /** The flag the script computes for a line: some distinct item carries a
      camera or microphone prefix. */
  predicate MediaActive(data: string)
    ensures MediaActive(data) <==> exists piece | piece in Split(data, ',') :: IsMediaItem(piece)
  {
    exists item | item in Items(data) :: IsMediaItem(item)
  }

  /** The status line: "Media is active" exactly when the flag holds. */
  function StatusMessage(active: bool): (m: string)
    ensures m == ACTIVE <==> active
    ensures m == NOT_ACTIVE <==> !active
  {
    if active then ACTIVE else NOT_ACTIVE
  }

  /** The effects of one line: exactly one status message, then exactly one
      request carrying the flag of that line. */
  function LineEffects(data: string): (effects: seq<Effect>)
    ensures |effects| == 2 && effects[0].Print? && effects[1].Post?
    ensures effects[1].request.action == "on" <==> effects[0].text == ACTIVE
  {
    var active := MediaActive(data);
    [Print(StatusMessage(active)), Post(MediaEvent(active))]
  }

  /** The effects of a sequence of lines, each handled on its own. */
  function LinesEffects(lines: seq<string>): (effects: seq<Effect>)
    ensures |effects| == 2 * |lines|
  {
    if lines == [] then []
    else LinesEffects(lines[..|lines| - 1]) + LineEffects(lines[|lines| - 1])
  }

  /** The loop over the distinct items: look at them in any order and stop
      at the first camera or microphone item. */
  method ScanItems(items: set<string>) returns (isMediaActive: bool)
    ensures isMediaActive <==> exists item | item in items :: IsMediaItem(item)
  {
    isMediaActive := false;
    var unseen := items;
    while unseen != {}
      invariant unseen <= items
      invariant forall item :: item in items && item !in unseen ==> !IsMediaItem(item)
      decreases unseen
    {
      var item :| item in unseen;
      if IsMediaItem(item) {
        isMediaActive := true;
        break;
      }
      unseen := unseen - {item};
    }
  }

  /** The body of the read loop for one line. */
  method HandleLine(data: string) returns (effects: seq<Effect>)
    ensures effects == LineEffects(data)
  {
    var items := Items(data);
    var isMediaActive := ScanItems(items);
    effects := [Print(StatusMessage(isMediaActive))];
    effects := effects + [Post(MediaEvent(isMediaActive))];
  }

  /** The script over a finite input: the banner, then each line in turn. */
  method Run(lines: seq<string>) returns (trace: seq<Effect>)
    ensures trace == [Print(BANNER)] + LinesEffects(lines)
  {
    trace := [Print(BANNER)];
    var i := 0;
    while i < |lines|
      invariant 0 <= i <= |lines|
      invariant trace == [Print(BANNER)] + LinesEffects(lines[..i])
    {
      var effects := HandleLine(lines[i]);
      LinesEffectsStep(lines, i);
      AppendAssoc([Print(BANNER)], LinesEffects(lines[..i]), effects);
      trace := trace + effects;
      i := i + 1;
    }
    assert lines[..|lines|] == lines;
  }

  /** Handling one more line appends that line's effects. */
  lemma LinesEffectsStep(lines: seq<string>, i: nat)
    requires i < |lines|
    ensures LinesEffects(lines[..i + 1]) == LinesEffects(lines[..i]) + LineEffects(lines[i])
  {
    assert lines[..i + 1][..i] == lines[..i];
  }

  /** Exactly one status message per line, and it says "Media is active"
      exactly when the line has a camera or microphone item. */
  lemma StatusMessageOfLine(data: string)
    ensures |LineEffects(data)| == 2
    ensures LineEffects(data)[0].Print? && LineEffects(data)[1].Post?
    ensures LineEffects(data)[0].text == ACTIVE <==> MediaActive(data)
    ensures LineEffects(data)[0].text == NOT_ACTIVE <==> !MediaActive(data)
  {
  }

  /** The line's effects at position `2 * i` and `2 * i + 1` belong to line
      `i` alone: its status message, then a request with its own flag, sent
      whether or not the flag differs from the previous line's. */
  lemma {:induction false} LinesEffectsAt(lines: seq<string>, i: nat)
    requires i < |lines|
    ensures |LinesEffects(lines)| == 2 * |lines|
    ensures LinesEffects(lines)[2 * i] == Print(StatusMessage(MediaActive(lines[i])))
    ensures LinesEffects(lines)[2 * i + 1] == Post(MediaEvent(MediaActive(lines[i])))
  {
    var init := lines[..|lines| - 1];
    if i < |lines| - 1 {
      LinesEffectsAt(init, i);
    } else if |lines| > 1 {
      LinesEffectsAt(init, 0);
    }
  }

  /** No state carries over from one line to the next: the effects of a
      concatenated input are the concatenated effects. */
  lemma {:induction false} LinesEffectsAppend(a: seq<string>, b: seq<string>)
    ensures LinesEffects(a + b) == LinesEffects(a) + LinesEffects(b)
  {
    if b == [] {
      assert a + b == a;
    } else {
      var init := b[..|b| - 1];
      assert (a + b)[..|a + b| - 1] == a + init;
      assert (a + b)[|a + b| - 1] == b[|b| - 1];
      LinesEffectsAppend(a, init);
      AppendAssoc(LinesEffects(a), LinesEffects(init), LineEffects(b[|b| - 1]));
    }
  }

  /** The flag depends only on the set of items: lines that list the same
      tokens, in any order and with any repetitions, behave alike. */
  lemma SameTokensSameEffects(a: seq<string>, b: seq<string>)
    requires |a| >= 1 && |b| >= 1
    requires forall k :: 0 <= k < |a| ==> ',' !in a[k]
    requires forall k :: 0 <= k < |b| ==> ',' !in b[k]
    requires forall t :: t in a <==> t in b
    ensures LineEffects(Join(a, ',')) == LineEffects(Join(b, ','))
  {
    ItemsOfJoin(a);
    ItemsOfJoin(b);
    assert Items(Join(a, ',')) == Items(Join(b, ','));
  }

  /** A line in which neither "cam:" nor "mic:" occurs is inactive. */
  lemma InactiveWithoutTags(data: string)
    requires !Contains(data, "cam:") && !Contains(data, "mic:")
    ensures !MediaActive(data)
  {
    if MediaActive(data) {
      var item :| item in Items(data) && IsMediaItem(item);
      if StartsWith(item, "cam:") {
        PrefixOfItemOccurs(data, item, "cam:");
      } else {
        PrefixOfItemOccurs(data, item, "mic:");
      }
    }
  }

  /** A camera token turns the light on. */
  lemma CameraLine(name: string)
    requires ',' !in name
    ensures LineEffects("cam:" + name) == [Print(ACTIVE), Post(Request("on", HOMEASSISTANT_BASE_URL + SERVICE_PATH + "on"))]
  {
    ItemsWithoutComma("cam:" + name);
    assert ("cam:" + name)[..4] == "cam:";
  }

  /** A speaker token carries neither prefix. */
  lemma SpeakerInactive(name: string)
    requires ',' !in name
    ensures !MediaActive("speaker:" + name)
  {
    ItemsWithoutComma("speaker:" + name);
    NotMediaItemByFirstChar("speaker:" + name);
  }

  /** A speaker token turns the light off, and the request is still sent. */
  lemma SpeakerLine(name: string)
    requires ',' !in name
    ensures LineEffects("speaker:" + name) == [Print(NOT_ACTIVE), Post(Request("off", HOMEASSISTANT_BASE_URL + SERVICE_PATH + "off"))]
  {
    SpeakerInactive(name);
  }

  /** The empty line has one empty item, which never activates. */
  lemma EmptyLine()
    ensures Items("") == {""}
    ensures !MediaActive("")
  {
  }
}
