/**
 * The greedy word wrap that draws a face subtitle onto the label canvas
 * (`wrapText` in app.js). The canvas is reduced to the two calls the loop
 * makes: `measureText`, an arbitrary width function, and `fillText`, which
 * is recorded as the sequence of drawing commands the method returns.
 */
module WrapText {

  /** One `ctx.fillText(text, x, y)` call. */
  datatype FillText = FillText(text: string, x: int, y: int)

  /** JavaScript's `s.split(' ')`: the pieces between single spaces; never empty. */
  function Split(s: string): (ws: seq<string>)
    ensures |ws| >= 1
    ensures NoSpaces(ws)
    ensures Join(ws) == s
    decreases |s|
  {
    if s == [] then [""]
    else
      var rest := Split(s[1..]);
      if s[0] == ' ' then
        [""] + rest
      else
        assert Join(rest) == s[1..];
        var ws := [[s[0]] + rest[0]] + rest[1..];
        assert Join(ws) == s by {
          if |rest| > 1 {
            assert ws[1..] == rest[1..];
            calc {
              Join(ws);
              ([s[0]] + rest[0]) + " " + Join(rest[1..]);
              [s[0]] + (rest[0] + " " + Join(rest[1..]));
              [s[0]] + Join(rest);
            }
          }
        }
        ws
  }

  /** No piece contains a space. */
  predicate NoSpaces(ws: seq<string>)
  {
    forall k :: 0 <= k < |ws| ==> ' ' !in ws[k]
  }

  /** The inverse of `Split`: the pieces glued back together with single spaces. */
  function Join(ws: seq<string>): string
    requires |ws| >= 1
  {
    if |ws| == 1 then ws[0] else ws[0] + " " + Join(ws[1..])
  }

  /** Splitting a word list glued with single spaces gives the list back. */
  lemma {:induction false} SplitJoin(ws: seq<string>)
    requires |ws| >= 1
    requires NoSpaces(ws)
    ensures Split(Join(ws)) == ws
    decreases |ws|
  {
    if |ws| == 1 {
      SplitWord(ws[0], "");
      assert ws[0] + "" == ws[0];
    } else {
      var rest := Join(ws[1..]);
      assert NoSpaces(ws[1..]) by {
        forall k | 0 <= k < |ws| - 1 ensures ' ' !in ws[1..][k] {
          assert ws[1..][k] == ws[k + 1];
        }
      }
      assert ' ' !in ws[0];
      SplitJoin(ws[1..]);
      SplitSpace(rest);
      SplitWord(ws[0], " " + rest);
      assert Join(ws) == ws[0] + (" " + rest);
      assert ws[0] + "" == ws[0];
      assert ws == [ws[0]] + ws[1..];
    }
  }

  /** A leading space starts a new, empty first piece. */
  lemma SplitSpace(t: string)
    ensures Split(" " + t) == [""] + Split(t)
  {
    assert (" " + t)[1..] == t;
  }

  /** A word without spaces is glued onto the first piece of what follows it. */
  lemma {:induction false} SplitWord(w: string, t: string)
    requires ' ' !in w
    ensures Split(w + t) == [w + Split(t)[0]] + Split(t)[1..]
    decreases |w|
  {
    if w != [] {
      SplitWord(w[1..], t);
      assert (w + t)[1..] == w[1..] + t;
      assert (w + t)[0] == w[0];
      assert [w[0]] + (w[1..] + Split(t)[0]) == w + Split(t)[0];
    } else {
      assert w + t == t;
      var r := Split(t);
      assert r == [r[0]] + r[1..];
      assert w + r[0] == r[0];
    }
  }

  /** Every word followed by one space, run together: what `line + words[n] + ' '` builds. */
  function Spaced(ws: seq<string>): string
  {
    if ws == [] then "" else ws[0] + " " + Spaced(ws[1..])
  }

  lemma {:induction false} SpacedAppend(a: seq<string>, b: seq<string>)
    ensures Spaced(a + b) == Spaced(a) + Spaced(b)
    decreases |a|
  {
    if a != [] {
      SpacedAppend(a[1..], b);
      assert (a + b)[1..] == a[1..] + b;
    } else {
      assert a + b == b;
    }
  }

  /** Appending one word to a line appends the word and one space to its text. */
  lemma SpacedSnoc(a: seq<string>, w: string)
    ensures Spaced(a + [w]) == Spaced(a) + w + " "
  {
    SpacedAppend(a, [w]);
    assert Spaced([w]) == w + " " + Spaced([]);
  }

  /** The words of `text.split(' ')`, each followed by a space, spell `text` and one trailing space. */
  lemma {:induction false} SpacedJoin(ws: seq<string>)
    requires |ws| >= 1
    ensures Spaced(ws) == Join(ws) + " "
    decreases |ws|
  {
    if |ws| > 1 {
      SpacedJoin(ws[1..]);
    }
  }

  /** The words of a sequence of lines, in order. */
  function Flatten(gs: seq<seq<string>>): seq<string>
  {
    if gs == [] then [] else gs[0] + Flatten(gs[1..])
  }

  /**
   * The line structure the loop produces, as the words of each drawn line:
   * `WrapFrom(..., n, cur)` is what remains to be drawn when the loop is at
   * word `n` and the current line holds the words `cur`.
   */
  function WrapFrom(measure: string -> nat, maxWidth: int, words: seq<string>, n: nat, cur: seq<string>): (gs: seq<seq<string>>)
    requires n <= |words|
    ensures 1 <= |gs| <= |words| - n + 1
    decreases |words| - n
  {
    if n == |words| then
      [cur]
    else if measure(Spaced(cur) + words[n] + " ") > maxWidth && n > 0 then
      [cur] + WrapFrom(measure, maxWidth, words, n + 1, [words[n]])
    else
      WrapFrom(measure, maxWidth, words, n + 1, cur + [words[n]])
  }

  /** The words of every line `wrapText` draws, first line first. */
  function WrapGroups(measure: string -> nat, maxWidth: int, words: seq<string>): (gs: seq<seq<string>>)
    ensures 1 <= |gs| <= if words == [] then 1 else |words|
  {
    WrapFrom(measure, maxWidth, words, 0, [])
  }

  /** The text drawn by a sequence of `fillText` calls, run together. */
  function DrawnText(ds: seq<FillText>): string
  {
    if ds == [] then "" else ds[0].text + DrawnText(ds[1..])
  }

  /** No word is lost or reordered: the lines hold exactly the remaining words. */
  lemma {:induction false} WrapFromFlatten(measure: string -> nat, maxWidth: int, words: seq<string>, n: nat, cur: seq<string>)
    requires n <= |words|
    ensures Flatten(WrapFrom(measure, maxWidth, words, n, cur)) == cur + words[n..]
    decreases |words| - n
  {
    var gs := WrapFrom(measure, maxWidth, words, n, cur);
    if n == |words| {
      assert Flatten(gs) == cur + Flatten([]);
    } else if measure(Spaced(cur) + words[n] + " ") > maxWidth && n > 0 {
      WrapFromFlatten(measure, maxWidth, words, n + 1, [words[n]]);
      assert gs[1..] == WrapFrom(measure, maxWidth, words, n + 1, [words[n]]);
      assert words[n..] == [words[n]] + words[n + 1..];
    } else {
      WrapFromFlatten(measure, maxWidth, words, n + 1, cur + [words[n]]);
      assert words[n..] == [words[n]] + words[n + 1..];
    }
  }

  /** The current line's words always begin the next line drawn. */
  lemma {:induction false} WrapFromHead(measure: string -> nat, maxWidth: int, words: seq<string>, n: nat, cur: seq<string>)
    requires n <= |words|
    ensures var gs := WrapFrom(measure, maxWidth, words, n, cur);
      |gs| >= 1 && |cur| <= |gs[0]| && gs[0][..|cur|] == cur
    decreases |words| - n
  {
    if n == |words| {
    } else if measure(Spaced(cur) + words[n] + " ") > maxWidth && n > 0 {
    } else {
      WrapFromHead(measure, maxWidth, words, n + 1, cur + [words[n]]);
      var g := WrapFrom(measure, maxWidth, words, n + 1, cur + [words[n]])[0];
      assert g[..|cur|] == g[..|cur| + 1][..|cur|];
    }
  }

  /** Every line drawn holds at least one word: no break before the first word. */
  lemma {:induction false} WrapFromNonEmpty(measure: string -> nat, maxWidth: int, words: seq<string>, n: nat, cur: seq<string>)
    requires n <= |words|
    requires cur != [] || (n == 0 && |words| > 0)
    ensures forall k :: 0 <= k < |WrapFrom(measure, maxWidth, words, n, cur)| ==> WrapFrom(measure, maxWidth, words, n, cur)[k] != []
    decreases |words| - n
  {
    var gs := WrapFrom(measure, maxWidth, words, n, cur);
    if n == |words| {
    } else if measure(Spaced(cur) + words[n] + " ") > maxWidth && n > 0 {
      WrapFromNonEmpty(measure, maxWidth, words, n + 1, [words[n]]);
      assert gs[1..] == WrapFrom(measure, maxWidth, words, n + 1, [words[n]]);
      forall k | 0 <= k < |gs| ensures gs[k] != [] {
        if k > 0 { assert gs[k] == gs[1..][k - 1]; }
      }
    } else {
      WrapFromNonEmpty(measure, maxWidth, words, n + 1, cur + [words[n]]);
    }
  }

  /** Fits-or-single-word: a line of two or more words never measures more than `maxWidth`. */
  lemma {:induction false} WrapFromFits(measure: string -> nat, maxWidth: int, words: seq<string>, n: nat, cur: seq<string>)
    requires n <= |words|
    requires n == 0 ==> cur == []
    requires |cur| <= 1 || measure(Spaced(cur)) <= maxWidth
    ensures forall k :: 0 <= k < |WrapFrom(measure, maxWidth, words, n, cur)| ==>
      |WrapFrom(measure, maxWidth, words, n, cur)[k]| <= 1 || measure(Spaced(WrapFrom(measure, maxWidth, words, n, cur)[k])) <= maxWidth
    decreases |words| - n
  {
    var gs := WrapFrom(measure, maxWidth, words, n, cur);
    if n == |words| {
    } else if measure(Spaced(cur) + words[n] + " ") > maxWidth && n > 0 {
      WrapFromFits(measure, maxWidth, words, n + 1, [words[n]]);
      assert gs[1..] == WrapFrom(measure, maxWidth, words, n + 1, [words[n]]);
      forall k | 0 <= k < |gs| ensures |gs[k]| <= 1 || measure(Spaced(gs[k])) <= maxWidth {
        if k > 0 { assert gs[k] == gs[1..][k - 1]; }
      }
    } else {
      SpacedSnoc(cur, words[n]);
      WrapFromFits(measure, maxWidth, words, n + 1, cur + [words[n]]);
    }
  }

  /** The break between lines `g` and `h` was forced: `h`'s first word would have pushed `g` past `maxWidth`. */
  predicate Forced(measure: string -> nat, maxWidth: int, g: seq<string>, h: seq<string>)
  {
    h != [] && measure(Spaced(g) + h[0] + " ") > maxWidth
  }

  /** Every break in `gs` was forced. */
  predicate AllForced(measure: string -> nat, maxWidth: int, gs: seq<seq<string>>)
  {
    forall k :: 0 <= k < |gs| - 1 ==> Forced(measure, maxWidth, gs[k], gs[k + 1])
  }

  /** Greedy: a line is ended only when its next word would push it past `maxWidth`. */
  lemma {:induction false} WrapFromGreedy(measure: string -> nat, maxWidth: int, words: seq<string>, n: nat, cur: seq<string>)
    requires n <= |words|
    ensures AllForced(measure, maxWidth, WrapFrom(measure, maxWidth, words, n, cur))
    decreases |words| - n
  {
    var gs := WrapFrom(measure, maxWidth, words, n, cur);
    if n == |words| {
    } else if measure(Spaced(cur) + words[n] + " ") > maxWidth && n > 0 {
      var tail := WrapFrom(measure, maxWidth, words, n + 1, [words[n]]);
      WrapFromGreedy(measure, maxWidth, words, n + 1, [words[n]]);
      WrapFromHead(measure, maxWidth, words, n + 1, [words[n]]);
      assert gs[1..] == tail;
      assert tail[0][..1] == [words[n]];
      forall k | 0 <= k < |gs| - 1 ensures Forced(measure, maxWidth, gs[k], gs[k + 1]) {
        if k > 0 {
          assert gs[k] == tail[k - 1] && gs[k + 1] == tail[k];
        } else {
          assert gs[1][0] == tail[0][..1][0];
        }
      }
    } else {
      WrapFromGreedy(measure, maxWidth, words, n + 1, cur + [words[n]]);
      var tail := WrapFrom(measure, maxWidth, words, n + 1, cur + [words[n]]);
      assert gs == tail;
    }
  }

  /**
   * What the lines of `wrapText` are, for any measure function: at least one
   * line; together they hold the words in order; each line holds at least one
   * word and the first starts with the first word (no break at word 0); each
   * line is a single word or fits; and each break is forced by the next word.
   */
  lemma WrapGroupsSpec(measure: string -> nat, maxWidth: int, words: seq<string>)
    requires |words| >= 1
    ensures var gs := WrapGroups(measure, maxWidth, words);
      && |gs| >= 1
      && Flatten(gs) == words
      && (forall k :: 0 <= k < |gs| ==> gs[k] != [])
      && gs[0][0] == words[0]
      && (forall k :: 0 <= k < |gs| ==> |gs[k]| == 1 || measure(Spaced(gs[k])) <= maxWidth)
      && AllForced(measure, maxWidth, gs)
  {
    var gs := WrapGroups(measure, maxWidth, words);
    WrapFromFlatten(measure, maxWidth, words, 0, []);
    WrapFromHead(measure, maxWidth, words, 0, []);
    WrapFromNonEmpty(measure, maxWidth, words, 0, []);
    WrapFromFits(measure, maxWidth, words, 0, []);
    WrapFromGreedy(measure, maxWidth, words, 0, []);
    assert words[0..] == words;
    assert Flatten(gs) == gs[0] + Flatten(gs[1..]);
  }

  /** The text of drawn lines is the words of those lines, each followed by a space. */
  lemma {:induction false} DrawnTextFlatten(ds: seq<FillText>, gs: seq<seq<string>>)
    requires |ds| == |gs|
    requires forall k :: 0 <= k < |gs| ==> ds[k].text == Spaced(gs[k])
    ensures DrawnText(ds) == Spaced(Flatten(gs))
    decreases |gs|
  {
    if gs != [] {
      DrawnTextFlatten(ds[1..], gs[1..]);
      SpacedAppend(gs[0], Flatten(gs[1..]));
    }
  }

  /** The `fillText` calls that draw the lines `gs` from `(x, y)` downwards, one `lineHeight` apart. */
  function Drawn(gs: seq<seq<string>>, x: int, y: int, lineHeight: int): (ds: seq<FillText>)
    ensures |ds| == |gs|
  {
    if gs == [] then []
    else Drawn(gs[..|gs| - 1], x, y, lineHeight) + [FillText(Spaced(gs[|gs| - 1]), x, y + (|gs| - 1) * lineHeight)]
  }

  lemma {:induction false} DrawnAt(gs: seq<seq<string>>, x: int, y: int, lineHeight: int)
    ensures var ds := Drawn(gs, x, y, lineHeight);
      |ds| == |gs| && forall k :: 0 <= k < |gs| ==> ds[k] == FillText(Spaced(gs[k]), x, y + k * lineHeight)
    decreases |gs|
  {
    if gs != [] {
      DrawnAt(gs[..|gs| - 1], x, y, lineHeight);
    }
  }

  lemma DrawnSnoc(gs: seq<seq<string>>, g: seq<string>, x: int, y: int, lineHeight: int)
    ensures Drawn(gs + [g], x, y, lineHeight) == Drawn(gs, x, y, lineHeight) + [FillText(Spaced(g), x, y + |gs| * lineHeight)]
  {
    assert (gs + [g])[..|gs|] == gs;
  }

  /** Drawing the current line at the next row extends the drawing of the lines before it. */
  lemma DrawnLine(done: seq<seq<string>>, cur: seq<string>, draws: seq<FillText>, x: int, y: int, lineY: int, lineHeight: int)
    requires draws == Drawn(done, x, y, lineHeight)
    requires lineY == y + |done| * lineHeight
    ensures draws + [FillText(Spaced(cur), x, lineY)] == Drawn(done + [cur], x, y, lineHeight)
  {
    DrawnSnoc(done, cur, x, y, lineHeight);
  }

  /** One loop step that ends the current line leaves the overall line structure as it was. */
  lemma BreakStep(measure: string -> nat, maxWidth: int, words: seq<string>, n: nat, cur: seq<string>, done: seq<seq<string>>)
    requires n < |words| && n > 0
    requires measure(Spaced(cur) + words[n] + " ") > maxWidth
    ensures (done + [cur]) + WrapFrom(measure, maxWidth, words, n + 1, [words[n]]) == done + WrapFrom(measure, maxWidth, words, n, cur)
  {
    var rest := WrapFrom(measure, maxWidth, words, n + 1, [words[n]]);
    assert (done + [cur]) + rest == done + ([cur] + rest);
  }

  /**
   * `wrapText(ctx, text, x, y, maxWidth, lineHeight)`: the `fillText` calls it
   * makes, in order. At least one line is drawn; the lines, run together, are
   * `text` with one trailing space (every word of `text.split(' ')` followed by
   * one space); the k-th line is drawn at `(x, y + k * lineHeight)`; and the
   * lines are the greedy grouping `WrapGroups`.
   */
  method WrapText(measure: string -> nat, text: string, x: int, y: int, maxWidth: int, lineHeight: int)
      returns (draws: seq<FillText>)
    ensures draws == Drawn(WrapGroups(measure, maxWidth, Split(text)), x, y, lineHeight)
    ensures |draws| >= 1
    ensures DrawnText(draws) == text + " "
    ensures forall k :: 0 <= k < |draws| ==> draws[k].x == x && draws[k].y == y + k * lineHeight
  {
    var words := Split(text);
    var line := "";
    var lineY := y;
    ghost var done: seq<seq<string>> := [];
    ghost var cur: seq<string> := [];
    draws := [];
    for n := 0 to |words|
      invariant line == Spaced(cur)
      invariant n == 0 ==> cur == []
      invariant done + WrapFrom(measure, maxWidth, words, n, cur) == WrapGroups(measure, maxWidth, words)
      invariant draws == Drawn(done, x, y, lineHeight)
      invariant lineY == y + |done| * lineHeight
    {
      var testLine := line + words[n] + " ";
      var width := measure(testLine);
      if width > maxWidth && n > 0 {
        BreakStep(measure, maxWidth, words, n, cur, done);
        DrawnLine(done, cur, draws, x, y, lineY, lineHeight);
        draws := draws + [FillText(line, x, lineY)];
        assert (|done| + 1) * lineHeight == |done| * lineHeight + lineHeight;
        done := done + [cur];
        line := words[n] + " ";
        cur := [words[n]];
        SpacedSnoc([], words[n]);
        lineY := lineY + lineHeight;
      } else {
        SpacedSnoc(cur, words[n]);
        line := testLine;
        cur := cur + [words[n]];
      }
    }
    DrawnLine(done, cur, draws, x, y, lineY, lineHeight);
    draws := draws + [FillText(line, x, lineY)];
    done := done + [cur];
    WrapTextLines(measure, text, x, y, maxWidth, lineHeight);
  }

  /** The properties of the drawn lines that `WrapText` promises, for any measure function. */
  lemma WrapTextLines(measure: string -> nat, text: string, x: int, y: int, maxWidth: int, lineHeight: int)
    ensures var ds := Drawn(WrapGroups(measure, maxWidth, Split(text)), x, y, lineHeight);
      && |ds| >= 1
      && DrawnText(ds) == text + " "
      && forall k :: 0 <= k < |ds| ==> ds[k].x == x && ds[k].y == y + k * lineHeight
  {
    var words := Split(text);
    var gs := WrapGroups(measure, maxWidth, words);
    var ds := Drawn(gs, x, y, lineHeight);
    WrapGroupsSpec(measure, maxWidth, words);
    DrawnAt(gs, x, y, lineHeight);
    DrawnTextFlatten(ds, gs);
    SpacedJoin(words);
  }
}
