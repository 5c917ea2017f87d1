/** The mention prefix of every alert: the configured `;`-separated handles,
    each trimmed and written as ` <handle>`, followed by a line feed. */
module Mentions {
  import PhpStrings

  const Delimiter := ';'

  /** One mention as the chat service expects it. */
  function Wrap(handle: string): string
  {
    " <" + handle + ">"
  }

  /** The mentions of `handles`, in the order given. */
  function Segments(handles: seq<string>): string
  {
    if |handles| == 0 then ""
    else Segments(handles[..|handles| - 1]) + Wrap(handles[|handles| - 1])
  }

  /** Each key trimmed, in the order given. */
  function TrimAll(keys: seq<string>): (handles: seq<string>)
    ensures |handles| == |keys|
    ensures forall k :: 0 <= k < |keys| ==> handles[k] == PhpStrings.Trim(keys[k])
  {
    if |keys| == 0 then [] else [PhpStrings.Trim(keys[0])] + TrimAll(keys[1..])
  }

  /** The mention prefix for the configured string: one segment per piece of
      `explode(";", config)`, trimmed, then a line feed if anything was
      written. `explode` never returns an empty list, so something always is:
      the prefix is the segments followed by exactly one line feed, right
      after the closing `>` of the last segment. */
  function FromConfig(config: string): (r: string)
    ensures r == Segments(TrimAll(PhpStrings.Explode(Delimiter, config))) + "\n"
    ensures |r| >= 4 && r[|r| - 1] == '\n' && r[|r| - 2] == '>'
  {
    var result := Segments(TrimAll(PhpStrings.Explode(Delimiter, config)));
    if |result| > 0 then result + "\n" else result
  }

  /** Segments of a concatenation are the concatenated segments. */
  lemma {:induction false} SegmentsAppend(a: seq<string>, b: seq<string>)
    ensures Segments(a + b) == Segments(a) + Segments(b)
    decreases |b|
  {
    if |b| == 0 {
      assert a + b == a;
    } else {
      var init := b[..|b| - 1];
      assert (a + b)[..|a + b| - 1] == a + init;
      SegmentsAppend(a, init);
    }
  }

  /** Appending a handle appends its segment. */
  lemma SegmentsSnoc(a: seq<string>, x: string)
    ensures Segments(a + [x]) == Segments(a) + Wrap(x)
  {
    assert (a + [x])[..|a|] == a;
  }

  /** Each handle contributes exactly one segment, at its own place: the
      segments of the handles before it, then its own, then those after it. */
  lemma SegmentAt(before: seq<string>, x: string, after: seq<string>)
    ensures Segments(before + [x] + after) == Segments(before) + Wrap(x) + Segments(after)
  {
    SegmentsAppend(before + [x], after);
    SegmentsSnoc(before, x);
  }

  /** Configuring the keys `ks` joined by `;` mentions exactly those keys,
      trimmed, in order, one segment each. */
  lemma FromConfigOfKeys(ks: seq<string>)
    requires |ks| > 0
    requires forall k :: 0 <= k < |ks| ==> Delimiter !in ks[k]
    ensures FromConfig(PhpStrings.Implode(Delimiter, ks)) == Segments(TrimAll(ks)) + "\n"
  {
    PhpStrings.ExplodeImplode(Delimiter, ks);
  }

  /** A single handle without blanks around it is mentioned as itself. */
  lemma SingleHandle(h: string)
    requires Delimiter !in h && PhpStrings.Trim(h) == h
    ensures FromConfig(h) == Wrap(h) + "\n"
  {
    calc {
      FromConfig(h);
      { assert PhpStrings.Implode(Delimiter, [h]) == h;
        FromConfigOfKeys([h]); }
      Segments(TrimAll([h])) + "\n";
      { assert TrimAll([h]) == [h]; }
      Segments([] + [h] + []) + "\n";
      { SegmentAt([], h, []); }
      Wrap(h) + "\n";
    }
  }

  /** Empty pieces are kept: `a;;b` mentions an empty handle between the
      two (so `a;;b` gives ` <a> <> <b>` and a line feed). */
  lemma EmptyPieceKept(a: string, b: string)
    requires Delimiter !in a && Delimiter !in b
    ensures FromConfig(a + ";;" + b) == Wrap(PhpStrings.Trim(a)) + Wrap("") + Wrap(PhpStrings.Trim(b)) + "\n"
  {
    var ks := [a, "", b];
    var hs := [PhpStrings.Trim(a), "", PhpStrings.Trim(b)];
    calc {
      FromConfig(a + ";;" + b);
      { assert PhpStrings.Implode(Delimiter, ks[2..]) == b;
        assert PhpStrings.Implode(Delimiter, ks[1..]) == ";" + b;
        assert PhpStrings.Implode(Delimiter, ks) == a + ";;" + b;
        FromConfigOfKeys(ks); }
      Segments(TrimAll(ks)) + "\n";
      { assert PhpStrings.Trim("") == "";
        assert TrimAll(ks) == hs; }
      Segments(hs) + "\n";
      { assert hs[..2][..1][..0] == [];
        assert Segments(hs[..2][..1]) == Wrap(hs[0]); }
      Wrap(PhpStrings.Trim(a)) + Wrap("") + Wrap(PhpStrings.Trim(b)) + "\n";
    }
  }

  /** An empty configuration still mentions one empty handle. */
  lemma EmptyConfig()
    ensures FromConfig("") == " <>\n"
  {
    calc {
      FromConfig("");
      { assert PhpStrings.Implode(Delimiter, [""]) == "";
        FromConfigOfKeys([""]); }
      Segments(TrimAll([""])) + "\n";
      { assert PhpStrings.Trim("") == "";
        assert TrimAll([""]) == [""]; }
      Segments([""]) + "\n";
      { assert [""][..0] == []; }
      " <>\n";
    }
  }
}
