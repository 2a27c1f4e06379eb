/** callbacks/sample.py: for every input line, print how many distinct
    comma-separated items it has, then whether a microphone item is among
    them. Printing is modelled as the sequence of lines printed. */
module SampleCallback {
  import opened Tokens
  import Decimal

  const BANNER := "Ready to listen to stdin"
  const COUNT_SUFFIX := " unique services were received!"
  const MICROPHONE := "Microphone is active"

  /** The number of distinct items of a line: at least one, since splitting
      never yields an empty list, and at most one more than the number of
      commas. */
  function UniqueCount(data: string): (n: nat)
    ensures 1 <= n <= Occurrences(data, ',') + 1
  {
    |Items(data)|
  }

  /** The count message: the count in decimal, then the fixed suffix. */
  function CountMessage(n: nat): (m: string)
    ensures m != MICROPHONE
  {
    Decimal.ToString(n) + COUNT_SUFFIX
  }

  /** An item that reports an active microphone. */
  predicate IsMicItem(item: string)
    ensures IsMicItem(item) ==> |item| >= 4
  {
    StartsWith(item, "mic:")
  }

  /** Every token of the form "mic:<name>" reports a microphone. */
  lemma MicTagIsMicItem(name: string)
    ensures IsMicItem("mic:" + name)
  {
    assert ("mic:" + name)[..4] == "mic:";
  }

  /** Some distinct item of the line carries the microphone prefix. */
  predicate MicActive(data: string)
    ensures MicActive(data) <==> exists piece | piece in Split(data, ',') :: IsMicItem(piece)
  {
    exists item | item in Items(data) :: IsMicItem(item)
  }

  /** What the script prints for one line: the count message, then the
      microphone message when, and only when, a microphone item is present. */
  function LineOutput(data: string): (output: seq<string>)
    ensures |output| == (if MicActive(data) then 2 else 1)
    ensures output[0] == CountMessage(UniqueCount(data))
    ensures forall k :: 1 <= k < |output| ==> output[k] == MICROPHONE
  {
    [CountMessage(UniqueCount(data))] + (if MicActive(data) then [MICROPHONE] else [])
  }

  /** What the script prints for a sequence of lines, each handled on its own. */
  function LinesOutput(lines: seq<string>): seq<string>
  {
    if lines == [] then []
    else LinesOutput(lines[..|lines| - 1]) + LineOutput(lines[|lines| - 1])
  }

  /** The body of the read loop for one line: print the count, then look at
      the items in any order and print the microphone message at the first
      microphone item, stopping there. */
  method HandleLine(data: string) returns (output: seq<string>)
    ensures output == LineOutput(data)
  {
    var items := Items(data);
    output := [CountMessage(|items|)];
    var unseen := items;
    while unseen != {}
      invariant unseen <= items
      invariant output == [CountMessage(|items|)]
      invariant forall item :: item in items && item !in unseen ==> !IsMicItem(item)
      decreases unseen
    {
      var item :| item in unseen;
      if IsMicItem(item) {
        output := output + [MICROPHONE];
        break;
      }
      unseen := unseen - {item};
    }
  }

  /** The script over a finite input: the banner, then each line in turn. */
  method Run(lines: seq<string>) returns (output: seq<string>)
    ensures output == [BANNER] + LinesOutput(lines)
  {
    output := [BANNER];
    var i := 0;
    while i < |lines|
      invariant 0 <= i <= |lines|
      invariant output == [BANNER] + LinesOutput(lines[..i])
    {
      var printed := HandleLine(lines[i]);
      LinesOutputStep(lines, i);
      AppendAssoc([BANNER], LinesOutput(lines[..i]), printed);
      output := output + printed;
      i := i + 1;
    }
    assert lines[..|lines|] == lines;
  }

  /** Handling one more line appends that line's output. */
  lemma LinesOutputStep(lines: seq<string>, i: nat)
    requires i < |lines|
    ensures LinesOutput(lines[..i + 1]) == LinesOutput(lines[..i]) + LineOutput(lines[i])
  {
    assert lines[..i + 1][..i] == lines[..i];
  }

  /** The count message comes first; "Microphone is active" is printed once
      when some item has the microphone prefix and not at all otherwise. */
  lemma MicrophoneMessageOnce(data: string)
    ensures LineOutput(data)[0] == CountMessage(UniqueCount(data))
    ensures multiset(LineOutput(data))[MICROPHONE] == if MicActive(data) then 1 else 0
    ensures MICROPHONE in LineOutput(data) <==> MicActive(data)
  {
    var count := CountMessage(UniqueCount(data));
    if MicActive(data) {
      assert LineOutput(data) == [count] + [MICROPHONE];
      assert multiset(LineOutput(data)) == multiset{count} + multiset{MICROPHONE};
    } else {
      assert LineOutput(data) == [count];
    }
  }

  /** The count is the number of distinct tokens the line lists, empty tokens
      included: order and repetition do not matter. */
  lemma UniqueCountOfTokens(tokens: seq<string>)
    requires |tokens| >= 1
    requires forall k :: 0 <= k < |tokens| ==> ',' !in tokens[k]
    ensures UniqueCount(Join(tokens, ',')) == |Elements(tokens)|
  {
    ItemsOfJoin(tokens);
  }

  /** Lines listing the same tokens print the same thing. */
  lemma SameTokensSameOutput(a: seq<string>, b: seq<string>)
    requires |a| >= 1 && |b| >= 1
    requires forall k :: 0 <= k < |a| ==> ',' !in a[k]
    requires forall k :: 0 <= k < |b| ==> ',' !in b[k]
    requires forall t :: t in a <==> t in b
    ensures LineOutput(Join(a, ',')) == LineOutput(Join(b, ','))
  {
    ItemsOfJoin(a);
    ItemsOfJoin(b);
    assert Items(Join(a, ',')) == Items(Join(b, ','));
  }

  /** A line in which "mic:" does not occur never reports a microphone. */
  lemma SilentWithoutMicTag(data: string)
    requires !Contains(data, "mic:")
    ensures !MicActive(data)
  {
    if MicActive(data) {
      var item :| item in Items(data) && IsMicItem(item);
      PrefixOfItemOccurs(data, item, "mic:");
    }
  }

  /** No state carries over from one line to the next. */
  lemma {:induction false} LinesOutputAppend(a: seq<string>, b: seq<string>)
    ensures LinesOutput(a + b) == LinesOutput(a) + LinesOutput(b)
  {
    if b == [] {
      assert a + b == a;
    } else {
      var init := b[..|b| - 1];
      assert (a + b)[..|a + b| - 1] == a + init;
      assert (a + b)[|a + b| - 1] == b[|b| - 1];
      LinesOutputAppend(a, init);
      AppendAssoc(LinesOutput(a), LinesOutput(init), LineOutput(b[|b| - 1]));
    }
  }

  /** Each line prints one or two messages. */
  lemma {:induction false} LinesOutputLength(lines: seq<string>)
    ensures |lines| <= |LinesOutput(lines)| <= 2 * |lines|
  {
    if lines != [] {
      LinesOutputLength(lines[..|lines| - 1]);
    }
  }

  /** An empty line has the single empty item and reports a count of 1. */
  lemma EmptyLine()
    ensures UniqueCount("") == 1 && !MicActive("")
    ensures LineOutput("") == [CountMessage(1)]
  {
    assert Items("") == {""};
    assert !IsMicItem("");
  }

  /** The count message for one item, written out. */
  lemma CountMessageOfOne()
    ensures CountMessage(1) == "1 unique services were received!"
  {
    assert Decimal.ToString(1) == "1";
  }

  /** A repeated token is counted once: "a,a" reports what "a" reports. */
  lemma RepeatedToken()
    ensures UniqueCount("a,a") == UniqueCount("a") == 1
  {
    ItemsWithoutComma("a");
    UniqueCountOfTokens(["a", "a"]);
    assert Join(["a", "a"], ',') == "a,a";
    assert Elements(["a", "a"]) == {"a"};
  }

  /** Two different microphone tokens: a count of 2 and still a single
      microphone message. */
  lemma TwoMicrophones(x: string, y: string)
    requires ',' !in x && ',' !in y && x != y
    ensures LineOutput("mic:" + x + "," + "mic:" + y) == [CountMessage(2), MICROPHONE]
  {
    TwoMicrophoneCount(x, y);
    TwoMicrophoneActive(x, y);
  }

  /** A line listing two microphone tokens has exactly those two items. */
  lemma TwoMicrophoneItems(x: string, y: string)
    requires ',' !in x && ',' !in y
    ensures Items("mic:" + x + "," + "mic:" + y) == {"mic:" + x, "mic:" + y}
  {
    var tokens := ["mic:" + x, "mic:" + y];
    assert Join(tokens, ',') == "mic:" + x + "," + "mic:" + y;
    ItemsOfJoin(tokens);
  }

  /** ... so two different names give a count of 2 ... */
  lemma TwoMicrophoneCount(x: string, y: string)
    requires ',' !in x && ',' !in y && x != y
    ensures |Items("mic:" + x + "," + "mic:" + y)| == 2
  {
    TwoMicrophoneItems(x, y);
    assert ("mic:" + x)[4..] == x && ("mic:" + y)[4..] == y;
  }

  /** ... and a microphone. */
  lemma TwoMicrophoneActive(x: string, y: string)
    requires ',' !in x && ',' !in y
    ensures MicActive("mic:" + x + "," + "mic:" + y)
  {
    TwoMicrophoneItems(x, y);
    MicTagIsMicItem(x);
  }
}
