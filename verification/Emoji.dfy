/** Swapping emoji for placeholders before layout, and what that keeps. */
module Emoji {
  import opened Basics

  /** An em space. */
  const PLACEHOLDER := 0x2003 as char
  const VARIATION_SELECTOR_16 := 0xFE0F as char
  const COMBINING_KEYCAP := 0x20E3 as char

  datatype Prepared = Prepared(text: string, emoji: seq<(nat, string)>)

  predicate IsAscii(s: string) { forall i :: 0 <= i < |s| ==> s[i] as int < 128 }

  predicate Between(n: int, lo: int, hi: int) { lo <= n <= hi }

  predicate IsDefaultEmoji(c: char) {
    var n := c as int;
    || Between(n, 0x1F000, 0x1FAFF)
    || Between(n, 0x231A, 0x231B) || Between(n, 0x23E9, 0x23EC) || n == 0x23F0 || n == 0x23F3
    || Between(n, 0x25FD, 0x25FE) || Between(n, 0x2614, 0x2615) || Between(n, 0x2648, 0x2653)
    || n == 0x267F || n == 0x2693 || n == 0x26A1 || Between(n, 0x26AA, 0x26AB)
    || Between(n, 0x26BD, 0x26BE) || Between(n, 0x26C4, 0x26C5) || n == 0x26CE || n == 0x26D4
    || n == 0x26EA || Between(n, 0x26F2, 0x26F3) || n == 0x26F5 || n == 0x26FA || n == 0x26FD
    || n == 0x2705 || Between(n, 0x270A, 0x270B) || n == 0x2728 || n == 0x274C || n == 0x274E
    || Between(n, 0x2753, 0x2755) || n == 0x2757 || Between(n, 0x2795, 0x2797) || n == 0x27B0
    || n == 0x27BF || Between(n, 0x2B1B, 0x2B1C) || n == 0x2B50 || n == 0x2B55
  }

  predicate HasEmojiPresentation(cluster: string) {
    || VARIATION_SELECTOR_16 in cluster
    || COMBINING_KEYCAP in cluster
    || (cluster != "" && IsDefaultEmoji(cluster[0]))
  }

  /** The artwork set, asked for the cluster as written and without its selectors. */
  predicate HasArtwork(cluster: string, known: string -> bool) {
    known(cluster) || known(Filter(cluster, c => c != VARIATION_SELECTOR_16))
  }

  predicate IsEmoji(cluster: string, known: string -> bool) {
    !IsAscii(cluster) && HasArtwork(cluster, known) && HasEmojiPresentation(cluster)
  }

  /** `clusters` are the graphemes of `original`, as the segmentation library finds them. */
  method Prepare(original: string, clusters: seq<string>, known: string -> bool) returns (p: Prepared)
    requires Flat(clusters) == original
    ensures p == Swapped(clusters, known)
  {
    if IsAscii(original) {
      AsciiHasNoEmoji(clusters, known);
      return Prepared(original, []);
    }
    var text: string, chars := "", 0;
    var emoji: seq<(nat, string)> := [];
    for i := 0 to |clusters|
      invariant chars == |text| && Prepared(text, emoji) == Swapped(clusters[..i], known)
    {
      var cluster := clusters[i];
      assert clusters[..i + 1][..i] == clusters[..i];
      if IsEmoji(cluster, known) {
        emoji := emoji + [(chars, cluster)];
        text := text + [PLACEHOLDER];
        chars := chars + 1;
      } else {
        text := text + cluster;
        chars := chars + |cluster|;
      }
    }
    assert clusters[..|clusters|] == clusters;
    p := Prepared(text, emoji);
  }

  function Swapped(clusters: seq<string>, known: string -> bool): Prepared {
    if clusters == [] then Prepared("", [])
    else
      var before, cluster := Swapped(clusters[..|clusters| - 1], known), clusters[|clusters| - 1];
      if IsEmoji(cluster, known) then Prepared(before.text + [PLACEHOLDER], before.emoji + [(|before.text|, cluster)])
      else before.(text := before.text + cluster)
  }

  /** The text with each emoji put back at its index, from the left; `at` is the
      index of the first character left. */
  function Restored(text: string, emoji: seq<(nat, string)>, at: nat): string {
    if text == "" then ""
    else if emoji != [] && emoji[0].0 == at then emoji[0].1 + Restored(text[1..], emoji[1..], at + 1)
    else [text[0]] + Restored(text[1..], emoji, at + 1)
  }

  /** Ascending indices, each at a placeholder. */
  ghost predicate WellPlaced(p: Prepared) {
    && (forall i, j :: 0 <= i < j < |p.emoji| ==> p.emoji[i].0 < p.emoji[j].0)
    && (forall i :: 0 <= i < |p.emoji| ==> p.emoji[i].0 < |p.text| && p.text[p.emoji[i].0] == PLACEHOLDER)
  }

  lemma {:induction false} FlatAppend(parts: seq<string>, last: string)
    ensures Flat(parts + [last]) == Flat(parts) + last
  {
    if parts == [] {
      assert parts + [last] == [last] && Flat([last]) == last + Flat([last][1..]);
      assert [last][1..] == [];
    } else {
      assert (parts + [last])[1..] == parts[1..] + [last];
      FlatAppend(parts[1..], last);
    }
  }

  lemma {:induction false} AsciiHasNoEmoji(clusters: seq<string>, known: string -> bool)
    requires IsAscii(Flat(clusters))
    ensures Swapped(clusters, known) == Prepared(Flat(clusters), [])
  {
    if clusters != [] {
      var n := |clusters| - 1;
      FlatAppend(clusters[..n], clusters[n]);
      assert clusters == clusters[..n] + [clusters[n]];
      var whole := Flat(clusters[..n]) + clusters[n];
      assert Flat(clusters) == whole;
      forall i | 0 <= i < |clusters[n]| ensures clusters[n][i] as int < 128 {
        assert whole[|Flat(clusters[..n])| + i] == clusters[n][i];
      }
      forall i | 0 <= i < |Flat(clusters[..n])| ensures Flat(clusters[..n])[i] as int < 128 {
        assert whole[i] == Flat(clusters[..n])[i];
      }
      AsciiHasNoEmoji(clusters[..n], known);
    }
  }

  lemma {:induction false} SwappedIsWellPlaced(clusters: seq<string>, known: string -> bool)
    ensures WellPlaced(Swapped(clusters, known))
  {
    if clusters != [] {
      SwappedIsWellPlaced(clusters[..|clusters| - 1], known);
    }
  }

  /** With every index before it behind, plain text is restored as it stands. */
  lemma {:induction false} RestorePlain(text: string, at: nat)
    ensures Restored(text, [], at) == text
  {
    if text != "" {
      RestorePlain(text[1..], at + 1);
    }
  }

  /** Restoring the front, whose emoji are `emoji`, and then the rest is restoring the whole. */
  predicate Cuts(front: string, back: string, emoji: seq<(nat, string)>, more: seq<(nat, string)>, at: nat) {
    Restored(front + back, emoji + more, at) == Restored(front, emoji, at) + Restored(back, more, at + |front|)
  }

  lemma CutsAtEmoji(front: string, back: string, emoji: seq<(nat, string)>, more: seq<(nat, string)>, at: nat)
    requires front != "" && emoji != [] && emoji[0].0 == at && Cuts(front[1..], back, emoji[1..], more, at + 1)
    ensures Cuts(front, back, emoji, more, at)
  {
    assert (front + back)[1..] == front[1..] + back;
    assert (emoji + more)[1..] == emoji[1..] + more && (emoji + more)[0] == emoji[0];
    ConcatAssoc(emoji[0].1, Restored(front[1..], emoji[1..], at + 1), Restored(back, more, at + |front|));
  }

  lemma CutsAtText(front: string, back: string, emoji: seq<(nat, string)>, more: seq<(nat, string)>, at: nat)
    requires front != "" && (emoji != [] ==> emoji[0].0 != at) && (more != [] ==> more[0].0 != at)
    requires Cuts(front[1..], back, emoji, more, at + 1)
    ensures Cuts(front, back, emoji, more, at)
  {
    assert (front + back)[1..] == front[1..] + back;
    assert emoji + more == [] || (emoji + more)[0].0 != at;
    ConcatAssoc([front[0]], Restored(front[1..], emoji, at + 1), Restored(back, more, at + |front|));
  }

  lemma CutsAtNothing(back: string, more: seq<(nat, string)>, at: nat)
    ensures Cuts("", back, [], more, at)
  {
    assert "" + back == back && [] + more == more;
  }

  /** Ascending indices from `lo` to below `hi`. */
  ghost predicate Within(emoji: seq<(nat, string)>, lo: nat, hi: nat) {
    && (forall i :: 0 <= i < |emoji| ==> lo <= emoji[i].0 < hi)
    && (forall i, j :: 0 <= i < j < |emoji| ==> emoji[i].0 < emoji[j].0)
  }

  lemma WithinFirst(emoji: seq<(nat, string)>, lo: nat, hi: nat)
    requires Within(emoji, lo, hi) && emoji != []
    ensures lo < hi
  {
    assert lo <= emoji[0].0 < hi;
  }

  lemma WithinRest(emoji: seq<(nat, string)>, lo: nat, hi: nat)
    requires Within(emoji, lo, hi)
    ensures if emoji != [] && emoji[0].0 == lo then Within(emoji[1..], lo + 1, hi) else Within(emoji, lo + 1, hi)
  {
  }

  lemma {:induction false} RestoreCut(front: string, back: string, emoji: seq<(nat, string)>,
      more: seq<(nat, string)>, at: nat, end: nat)
    requires end == at + |front| && Within(emoji, at, end) && (more != [] ==> more[0].0 >= end)
    ensures Cuts(front, back, emoji, more, at)
    decreases |front|
  {
    if front == "" {
      if emoji == [] {
        CutsAtNothing(back, more, at);
      } else {
        WithinFirst(emoji, at, end);
      }
    } else if emoji != [] && emoji[0].0 == at {
      WithinRest(emoji, at, end);
      RestoreCut(front[1..], back, emoji[1..], more, at + 1, end);
      CutsAtEmoji(front, back, emoji, more, at);
    } else {
      WithinRest(emoji, at, end);
      RestoreCut(front[1..], back, emoji, more, at + 1, end);
      CutsAtText(front, back, emoji, more, at);
    }
  }

  lemma RestoreOneEmoji(p: Prepared, cluster: string)
    requires WellPlaced(p)
    ensures Restored(p.text + [PLACEHOLDER], p.emoji + [(|p.text|, cluster)], 0) ==
        Restored(p.text, p.emoji, 0) + cluster
  {
    var one: seq<(nat, string)> := [(|p.text|, cluster)];
    RestoreCut(p.text, [PLACEHOLDER], p.emoji, one, 0, |p.text|);
    assert Restored([PLACEHOLDER][1..], one[1..], |p.text| + 1) == "";
    assert cluster + "" == cluster;
  }

  lemma RestoreOnePlain(p: Prepared, cluster: string)
    requires WellPlaced(p)
    ensures Restored(p.text + cluster, p.emoji, 0) == Restored(p.text, p.emoji, 0) + cluster
  {
    RestoreCut(p.text, cluster, p.emoji, [], 0, |p.text|);
    RestorePlain(cluster, |p.text|);
    assert p.emoji + [] == p.emoji;
  }

  /** Putting each emoji back at its index gives the original text; the indices
      ascend and each is a placeholder's. */
  lemma {:induction false} PrepareLosesNothing(clusters: seq<string>, known: string -> bool)
    ensures var p := Swapped(clusters, known);
            Restored(p.text, p.emoji, 0) == Flat(clusters) && WellPlaced(p)
  {
    SwappedIsWellPlaced(clusters, known);
    if clusters != [] {
      var n := |clusters| - 1;
      var last, before := clusters[n], Swapped(clusters[..n], known);
      PrepareLosesNothing(clusters[..n], known);
      FlatAppend(clusters[..n], last);
      assert clusters == clusters[..n] + [last];
      if IsEmoji(last, known) {
        RestoreOneEmoji(before, last);
      } else {
        RestoreOnePlain(before, last);
      }
    }
  }

  /** A cluster is taken out exactly when it is not all ASCII, asks for the emoji form by
      a selector, a keycap or its first character, and has artwork, with or without its
      selectors. */
  lemma EmojiIff(cluster: string, known: string -> bool)
    ensures var bare := Filter(cluster, c => c != '\U{FE0F}');
            IsEmoji(cluster, known) <==>
              && (exists i :: 0 <= i < |cluster| && cluster[i] as int >= 128)
              && ('\U{FE0F}' in cluster || '\U{20E3}' in cluster || IsDefaultEmoji(cluster[0]))
              && (known(cluster) || known(bare))
  {
    FilterSame(cluster, c => c != '\U{FE0F}', c => c != VARIATION_SELECTOR_16);
  }

  /** Exactly the emoji among the clusters are taken out, in order. */
  lemma {:induction false} ExactlyTheEmojiGo(clusters: seq<string>, known: string -> bool)
    ensures var p := Swapped(clusters, known);
            && |p.emoji| == |Filter(clusters, c => IsEmoji(c, known))|
            && forall i :: 0 <= i < |p.emoji| ==> p.emoji[i].1 == Filter(clusters, c => IsEmoji(c, known))[i]
  {
    var taken := (c: string) => IsEmoji(c, known);
    FilterSame(clusters, c => IsEmoji(c, known), taken);
    if clusters != [] {
      var n := |clusters| - 1;
      ExactlyTheEmojiGo(clusters[..n], known);
      FilterSame(clusters[..n], c => IsEmoji(c, known), taken);
      FilterAppend(clusters[..n], [clusters[n]], taken);
      assert clusters == clusters[..n] + [clusters[n]];
    }
  }
}
