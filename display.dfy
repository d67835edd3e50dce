/** The textual forms of a list: every element rendered by the caller's
    conversion, joined with a separator. */
module Display {

  /** Each element's text, in list order. */
  function Render<T>(s: seq<T>, toStr: T -> string): seq<string>
  {
    seq(|s|, k requires 0 <= k < |s| => toStr(s[k]))
  }

  /** The parts with sep between each neighbouring pair and nowhere else. */
  function Join(parts: seq<string>, sep: string): string
  {
    if |parts| == 0 then ""
    else if |parts| == 1 then parts[0]
    else parts[0] + sep + Join(parts[1..], sep)
  }

  /** Joining a single part gives that part unchanged: no separator appears. */
  lemma JoinOne(p: string, sep: string)
    ensures Join([p], sep) == p
  {
  }

  /** Adding a part at the end adds one separator and the part. */
  lemma {:induction false} JoinSnoc(parts: seq<string>, p: string, sep: string)
    requires |parts| > 0
    ensures Join(parts + [p], sep) == Join(parts, sep) + sep + p
    decreases |parts|
  {
    if |parts| > 1 {
      JoinSnoc(parts[1..], p, sep);
      assert (parts + [p])[1..] == parts[1..] + [p];
    } else {
      assert parts + [p] == [parts[0], p];
    }
  }

  /** One step of the display loops: the text for the first i+1 parts. */
  lemma JoinStep(parts: seq<string>, i: nat, sep: string)
    requires i < |parts|
    ensures Join(parts[..i + 1], sep) == if i == 0 then parts[0] else Join(parts[..i], sep) + sep + parts[i]
  {
    if i > 0 {
      assert parts[..i + 1] == parts[..i] + [parts[i]];
      JoinSnoc(parts[..i], parts[i], sep);
    } else {
      assert parts[..1] == [parts[0]];
    }
  }

  /** Joining two non-empty runs of parts puts exactly one separator
      between them. */
  lemma {:induction false} JoinAppend(a: seq<string>, b: seq<string>, sep: string)
    requires |a| > 0 && |b| > 0
    ensures Join(a + b, sep) == Join(a, sep) + sep + Join(b, sep)
    decreases |a|
  {
    if |a| > 1 {
      JoinAppend(a[1..], b, sep);
      assert (a + b)[1..] == a[1..] + b;
    } else {
      assert a + b == [a[0]] + b;
      assert (a + b)[1..] == b;
    }
  }

  /** The length of the text: every part, plus one separator fewer than
      there are parts. */
  lemma {:induction false} JoinLength(parts: seq<string>, sep: string)
    requires |parts| > 0
    ensures |Join(parts, sep)| == TotalLength(parts) + (|parts| - 1) * |sep|
    decreases |parts|
  {
    if |parts| > 1 {
      JoinLength(parts[1..], sep);
    }
  }

  /** The summed length of the parts. */
  function TotalLength(parts: seq<string>): nat
  {
    if |parts| == 0 then 0 else |parts[0]| + TotalLength(parts[1..])
  }
}
