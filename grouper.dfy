/** boxarr2imgboxarr of src/via.cpp and src/ibox_via.cpp: the boxes with a
    fault, grouped by image, the groups in increasing image order (the key
    order of std::map) and the boxes of a group in input order. */
module Grouper {
  import opened Strings
  import opened Ordered
  import opened FaultCode
  import opened Boxes

  /** The boxes of image k that carry a fault, in input order. */
  function OnImage(bs: seq<Box>, k: string): (r: seq<Box>)
    ensures forall i | 0 <= i < |r| :: r[i].image == k && r[i].fault != NONE
    decreases |bs|
  {
    if |bs| == 0 then []
    else
      var b := bs[|bs| - 1];
      OnImage(bs[..|bs| - 1], k) + (if b.fault != NONE && b.image == k then [b] else [])
  }

  /** The images of the boxes that carry a fault, in input order. */
  function ImagesOf(bs: seq<Box>): seq<string>
    decreases |bs|
  {
    if |bs| == 0 then []
    else
      var b := bs[|bs| - 1];
      ImagesOf(bs[..|bs| - 1]) + (if b.fault != NONE then [b.image] else [])
  }

  /** The grouping: one ImgBox per distinct image, in increasing order. */
  function Grouped(bs: seq<Box>): seq<ImgBox> {
    var keys := SortedDistinct(ImagesOf(bs));
    seq(|keys|, i requires 0 <= i < |keys| => ImgBox(keys[i], OnImage(bs, keys[i])))
  }

  /** The state of the first loop after the boxes bs: keys is the ordered
      key sequence of img_map and each entry holds the group of its image. */
  ghost predicate Accumulated(bs: seq<Box>, keys: seq<string>, img_map: map<string, seq<Box>>) {
    && Increasing(keys)
    && (forall k :: k in keys <==> k in ImagesOf(bs))
    && (forall k :: k in img_map <==> k in keys)
    && (forall k | k in img_map :: img_map[k] == OnImage(bs, k))
    && (forall k | k !in img_map :: OnImage(bs, k) == [])
  }

  /** A box without a fault leaves the state as it is. */
  lemma AccumulateSkip(boxes: seq<Box>, i: nat, keys: seq<string>, img_map: map<string, seq<Box>>)
    requires i < |boxes| && Accumulated(boxes[..i], keys, img_map) && boxes[i].fault == NONE
    ensures Accumulated(boxes[..i + 1], keys, img_map)
  {
    var bs, b := boxes[..i], boxes[i];
    var bs' := boxes[..i + 1];
    assert bs' == bs + [b];
    assert bs'[..|bs'| - 1] == bs;
    assert ImagesOf(bs') == ImagesOf(bs);
    OnImageSnoc(bs, b);
  }

  /** A box with a fault is appended to the group of its image. */
  lemma AccumulateAdd(boxes: seq<Box>, i: nat, keys: seq<string>, img_map: map<string, seq<Box>>)
    requires i < |boxes| && Accumulated(boxes[..i], keys, img_map) && boxes[i].fault != NONE
    ensures var b := boxes[i];
      var group := if b.image in img_map then img_map[b.image] else [];
      Accumulated(boxes[..i + 1], Insert(b.image, keys), img_map[b.image := group + [b]])
  {
    var bs, b := boxes[..i], boxes[i];
    var bs' := boxes[..i + 1];
    assert bs' == bs + [b];
    assert bs'[..|bs'| - 1] == bs;
    assert ImagesOf(bs') == ImagesOf(bs) + [b.image];
    OnImageSnoc(bs, b);
  }

  /** One more box extends the group of its image when it has a fault. */
  lemma OnImageSnoc(bs: seq<Box>, b: Box)
    ensures forall k :: OnImage(bs + [b], k) == OnImage(bs, k) + (if b.fault != NONE && b.image == k then [b] else [])
  {
    var bs' := bs + [b];
    assert bs'[..|bs'| - 1] == bs;
  }

  /** After the first loop, the map lists the groups of Grouped. */
  lemma AccumulatedGroups(bs: seq<Box>, keys: seq<string>, img_map: map<string, seq<Box>>)
    requires Accumulated(bs, keys, img_map)
    ensures |Grouped(bs)| == |keys|
    ensures forall t | 0 <= t < |keys| :: keys[t] in img_map && Grouped(bs)[t] == ImgBox(keys[t], img_map[keys[t]])
  {
    IncreasingUnique(keys, SortedDistinct(ImagesOf(bs)));
  }

  /** The first loop of boxarr2imgboxarr: img_map, with keys its ordered
      key sequence. */
  method GroupByImage(boxes: seq<Box>) returns (keys: seq<string>, img_map: map<string, seq<Box>>)
    ensures |Grouped(boxes)| == |keys|
    ensures forall t | 0 <= t < |keys| :: keys[t] in img_map && Grouped(boxes)[t] == ImgBox(keys[t], img_map[keys[t]])
  {
    keys := [];
    img_map := map[];
    for i := 0 to |boxes|
      invariant Accumulated(boxes[..i], keys, img_map)
    {
      var b := boxes[i];
      if b.fault == NONE {
        AccumulateSkip(boxes, i, keys, img_map);
        continue;
      }
      AccumulateAdd(boxes, i, keys, img_map);
      var group := if b.image in img_map then img_map[b.image] else [];
      keys := Insert(b.image, keys);
      img_map := img_map[b.image := group + [b]];
    }
    assert boxes[..|boxes|] == boxes;
    AccumulatedGroups(boxes, keys, img_map);
  }

  /** boxarr2imgboxarr: the first loop groups, the second lists the groups
      in key order. */
  method BoxArr2ImgBoxArr(boxes: seq<Box>) returns (iboxes: seq<ImgBox>)
    ensures iboxes == Grouped(boxes)
  {
    var keys, img_map := GroupByImage(boxes);
    ghost var g := Grouped(boxes);
    iboxes := [];
    for j := 0 to |keys|
      invariant iboxes == g[..j]
    {
      var bb := ImgBox(keys[j], img_map[keys[j]]);
      assert g[..j + 1] == g[..j] + [bb];
      iboxes := iboxes + [bb];
    }
    assert g[..|keys|] == g;
  }

  /** A box is in the group of k exactly when it is an input box of image k
      with a fault. */
  lemma {:induction false} OnImageMembers(bs: seq<Box>, k: string, b: Box)
    ensures b in OnImage(bs, k) <==> b in bs && b.image == k && b.fault != NONE
    decreases |bs|
  {
    if |bs| > 0 {
      OnImageMembers(bs[..|bs| - 1], k, b);
      assert bs == bs[..|bs| - 1] + [bs[|bs| - 1]];
    }
  }

  /** Some box of image k carries a fault. */
  predicate HasFaulty(bs: seq<Box>, k: string) {
    exists j | 0 <= j < |bs| :: bs[j].image == k && bs[j].fault != NONE
  }

  /** Some group is of image k. */
  predicate Listed(r: seq<ImgBox>, k: string) {
    exists i | 0 <= i < |r| :: r[i].image == k
  }

  /** An image is listed exactly when some box of it has a fault. */
  lemma {:induction false} ImagesOfMembers(bs: seq<Box>, k: string)
    ensures k in ImagesOf(bs) <==> HasFaulty(bs, k)
    decreases |bs|
  {
    if |bs| > 0 {
      var init := bs[..|bs| - 1];
      ImagesOfMembers(init, k);
      if exists j | 0 <= j < |bs| :: bs[j].image == k && bs[j].fault != NONE {
        var j :| 0 <= j < |bs| && bs[j].image == k && bs[j].fault != NONE;
        if j < |init| {
          assert init[j] == bs[j];
        }
      }
      if exists j | 0 <= j < |init| :: init[j].image == k && init[j].fault != NONE {
        var j :| 0 <= j < |init| && init[j].image == k && init[j].fault != NONE;
        assert bs[j] == init[j];
      }
    }
  }

  /** The properties of the grouping: images strictly increasing (hence
      distinct), exactly the images with a faulty box, no empty group, and
      each group holding exactly the faulty boxes of its image. */
  lemma GroupedSpec(bs: seq<Box>)
    ensures var r := Grouped(bs);
      && Increasing(seq(|r|, i requires 0 <= i < |r| => r[i].image))
      && (forall k :: Listed(r, k) <==> HasFaulty(bs, k))
      && (forall i | 0 <= i < |r| :: |r[i].boxes| > 0)
      && (forall i, b | 0 <= i < |r| :: b in r[i].boxes <==> b in bs && b.image == r[i].image && b.fault != NONE)
  {
    var r := Grouped(bs);
    var keys := SortedDistinct(ImagesOf(bs));
    assert seq(|r|, i requires 0 <= i < |r| => r[i].image) == keys;
    forall k ensures Listed(r, k) <==> HasFaulty(bs, k) {
      ImagesOfMembers(bs, k);
      if k in keys {
        var i :| 0 <= i < |keys| && keys[i] == k;
        assert r[i].image == k;
      }
    }
    forall i | 0 <= i < |r| ensures |r[i].boxes| > 0 {
      ImagesOfMembers(bs, keys[i]);
      var j :| 0 <= j < |bs| && bs[j].image == keys[i] && bs[j].fault != NONE;
      OnImageMembers(bs, keys[i], bs[j]);
    }
    forall i, b | 0 <= i < |r| ensures b in r[i].boxes <==> b in bs && b.image == r[i].image && b.fault != NONE {
      OnImageMembers(bs, keys[i], b);
    }
  }

  /** The boxes that carry a fault, in input order. */
  function Faulty(bs: seq<Box>): (r: seq<Box>)
    ensures |r| == |ImagesOf(bs)|
    decreases |bs|
  {
    if |bs| == 0 then []
    else
      var b := bs[|bs| - 1];
      Faulty(bs[..|bs| - 1]) + (if b.fault != NONE then [b] else [])
  }

  /** The boxes of all groups, group after group. */
  function AllBoxes(gs: seq<ImgBox>): seq<Box>
    decreases |gs|
  {
    if |gs| == 0 then [] else AllBoxes(gs[..|gs| - 1]) + gs[|gs| - 1].boxes
  }

  /** No box is lost or duplicated: the groups together hold exactly the
      boxes with a fault, each as often as it occurs in the input. */
  lemma GroupedBoxes(bs: seq<Box>)
    ensures multiset(AllBoxes(Grouped(bs))) == multiset(Faulty(bs))
  {
    var keys := SortedDistinct(ImagesOf(bs));
    BagsOver(bs, keys);
    BoxesAgainstKeys(bs, keys);
  }

  /** So the group sizes add up to the number of boxes with a fault. */
  lemma GroupSizes(bs: seq<Box>)
    ensures |AllBoxes(Grouped(bs))| == |ImagesOf(bs)|
  {
    GroupedBoxes(bs);
    assert |multiset(AllBoxes(Grouped(bs)))| == |multiset(Faulty(bs))|;
  }

  /** The boxes of the images in keys. */
  function BagOver(bs: seq<Box>, keys: seq<string>): multiset<Box>
    decreases |keys|
  {
    if |keys| == 0 then multiset{} else BagOver(bs, keys[..|keys| - 1]) + multiset(OnImage(bs, keys[|keys| - 1]))
  }

  lemma {:induction false} BagsOver(bs: seq<Box>, keys: seq<string>)
    ensures multiset(AllBoxes(seq(|keys|, i requires 0 <= i < |keys| => ImgBox(keys[i], OnImage(bs, keys[i]))))) == BagOver(bs, keys)
    decreases |keys|
  {
    if |keys| > 0 {
      var init := keys[..|keys| - 1];
      BagsOver(bs, init);
      var g := seq(|keys|, i requires 0 <= i < |keys| => ImgBox(keys[i], OnImage(bs, keys[i])));
      assert g[..|g| - 1] == seq(|init|, i requires 0 <= i < |init| => ImgBox(init[i], OnImage(bs, init[i])));
    }
  }

  /** Collecting the groups over the distinct images of the faulty boxes
      collects every faulty box once. */
  lemma {:induction false} BoxesAgainstKeys(bs: seq<Box>, keys: seq<string>)
    requires Increasing(keys) && forall k :: k in keys <==> k in ImagesOf(bs)
    ensures BagOver(bs, keys) == multiset(Faulty(bs))
    decreases |bs|
  {
    if |bs| == 0 {
      BagZero(bs, keys);
    } else {
      var init := bs[..|bs| - 1];
      var b := bs[|bs| - 1];
      if b.fault == NONE {
        BagOverSame(bs, init, keys);
        forall k ensures k in keys <==> k in ImagesOf(init) {
        }
        BoxesAgainstKeys(init, keys);
      } else {
        var initKeys := Remove(keys, b.image, ImagesOf(init));
        forall k ensures k in initKeys <==> k in ImagesOf(init) {
        }
        BoxesAgainstKeys(init, initKeys);
        BagOverStep(bs, keys, initKeys);
      }
    }
  }

  /** Without the boxes, nothing is collected. */
  lemma {:induction false} BagZero(bs: seq<Box>, keys: seq<string>)
    requires |bs| == 0
    ensures BagOver(bs, keys) == multiset{}
    decreases |keys|
  {
    if |keys| > 0 {
      BagZero(bs, keys[..|keys| - 1]);
    }
  }

  /** A last box without a fault changes no group. */
  lemma {:induction false} BagOverSame(bs: seq<Box>, init: seq<Box>, keys: seq<string>)
    requires |bs| > 0 && init == bs[..|bs| - 1] && bs[|bs| - 1].fault == NONE
    ensures BagOver(bs, keys) == BagOver(init, keys)
    decreases |keys|
  {
    if |keys| > 0 {
      BagOverSame(bs, init, keys[..|keys| - 1]);
    }
  }

  /** keys without k when k does not occur in rest; keys unchanged otherwise. */
  function Remove(keys: seq<string>, k: string, rest: seq<string>): (r: seq<string>)
    requires Increasing(keys)
    ensures Increasing(r)
    ensures forall z :: z in r <==> z in keys && (z != k || k in rest)
  {
    if k in rest then keys else Without(keys, k)
  }

  function Without(keys: seq<string>, k: string): (r: seq<string>)
    requires Increasing(keys)
    ensures Increasing(r)
    ensures forall z :: z in r <==> z in keys && z != k
    ensures k in keys ==> |r| == |keys| - 1
    ensures k !in keys ==> r == keys
    decreases |keys|
  {
    if |keys| == 0 then []
    else
      var init := keys[..|keys| - 1];
      var r := Without(init, k);
      if keys[|keys| - 1] == k then
        DropLast(keys);
        r
      else
        KeepLast(keys, k, r);
        r + [keys[|keys| - 1]]
  }

  /** Without the last key of an increasing sequence, the others remain. */
  lemma DropLast(keys: seq<string>)
    requires Increasing(keys) && |keys| > 0
    ensures var init, k := keys[..|keys| - 1], keys[|keys| - 1];
      && k !in init
      && forall z :: z in init <==> z in keys && z != k
  {
    assert keys == keys[..|keys| - 1] + [keys[|keys| - 1]];
    NotInPrefix(keys);
  }

  /** Keeping the last key when it is not the one removed. */
  lemma KeepLast(keys: seq<string>, k: string, r: seq<string>)
    requires Increasing(keys) && |keys| > 0 && keys[|keys| - 1] != k
    requires var init := keys[..|keys| - 1];
      && Increasing(r)
      && (forall z :: z in r <==> z in init && z != k)
      && (k in init ==> |r| == |init| - 1)
      && (k !in init ==> r == init)
    ensures var r' := r + [keys[|keys| - 1]];
      && Increasing(r')
      && (forall z :: z in r' <==> z in keys && z != k)
      && (k in keys ==> |r'| == |keys| - 1)
      && (k !in keys ==> r' == keys)
  {
    var init := keys[..|keys| - 1];
    assert keys == init + [keys[|keys| - 1]];
    assert forall i | 0 <= i < |r| :: r[i] in init;
    AppendIncreasing(r, keys);
  }

  lemma NotInPrefix(keys: seq<string>)
    requires Increasing(keys) && |keys| > 0
    ensures keys[|keys| - 1] !in keys[..|keys| - 1]
  {
    if keys[|keys| - 1] in keys[..|keys| - 1] {
      var i :| 0 <= i < |keys| - 1 && keys[i] == keys[|keys| - 1];
      LessIrreflexive(keys[i]);
    }
  }

  lemma AppendIncreasing(r: seq<string>, keys: seq<string>)
    requires Increasing(keys) && |keys| > 0 && Increasing(r)
    requires forall i | 0 <= i < |r| :: r[i] in keys[..|keys| - 1]
    ensures Increasing(r + [keys[|keys| - 1]])
  {
    var x := keys[|keys| - 1];
    var init := keys[..|keys| - 1];
    forall i | 0 <= i < |r| ensures Less(r[i], x) {
      assert r[i] in init;
      var j :| 0 <= j < |init| && init[j] == r[i];
      assert keys[j] == r[i];
    }
  }

  /** Adding one faulty box of image k adds it to k's group only. */
  lemma {:induction false} BagOverStep(bs: seq<Box>, keys: seq<string>, initKeys: seq<string>)
    requires |bs| > 0 && bs[|bs| - 1].fault != NONE
    requires Increasing(keys) && Increasing(initKeys)
    requires bs[|bs| - 1].image in keys
    requires forall z :: z in initKeys <==> z in keys && (z != bs[|bs| - 1].image || z in ImagesOf(bs[..|bs| - 1]))
    requires bs[|bs| - 1].image !in ImagesOf(bs[..|bs| - 1]) ==> initKeys == Without(keys, bs[|bs| - 1].image)
    requires bs[|bs| - 1].image in ImagesOf(bs[..|bs| - 1]) ==> initKeys == keys
    ensures BagOver(bs, keys) == BagOver(bs[..|bs| - 1], initKeys) + multiset{bs[|bs| - 1]}
    decreases |keys|
  {
    var init := bs[..|bs| - 1];
    var k := bs[|bs| - 1].image;
    var lk := keys[|keys| - 1];
    var kinit := keys[..|keys| - 1];
    NotInPrefix(keys);
    if k in ImagesOf(init) {
      BagOverBump(bs, keys);
    } else if lk == k {
      assert Without(keys, k) == Without(kinit, k);
      assert Without(kinit, k) == kinit;
      BagOverSameOther(bs, kinit);
      ImagesOfMembers(init, k);
      OnImageEmpty(init, k);
      BagOverLast(bs, keys);
    } else {
      var ik := Without(kinit, k);
      assert initKeys == ik + [lk];
      BagOverStep(bs, kinit, ik);
      assert OnImage(bs, lk) == OnImage(init, lk);
      BagOverOther(bs, keys, ik, initKeys);
    }
  }

  /** The final step when the last key is the last box's new image. */
  lemma BagOverLast(bs: seq<Box>, keys: seq<string>)
    requires |bs| > 0 && |keys| > 0 && bs[|bs| - 1].fault != NONE && keys[|keys| - 1] == bs[|bs| - 1].image
    requires BagOver(bs, keys[..|keys| - 1]) == BagOver(bs[..|bs| - 1], keys[..|keys| - 1])
    requires OnImage(bs[..|bs| - 1], bs[|bs| - 1].image) == []
    ensures BagOver(bs, keys) == BagOver(bs[..|bs| - 1], keys[..|keys| - 1]) + multiset{bs[|bs| - 1]}
  {
    assert OnImage(bs, keys[|keys| - 1]) == [bs[|bs| - 1]];
  }

  /** The final step when the last key is some other image. */
  lemma BagOverOther(bs: seq<Box>, keys: seq<string>, ik: seq<string>, initKeys: seq<string>)
    requires |bs| > 0 && |keys| > 0 && initKeys == ik + [keys[|keys| - 1]]
    requires BagOver(bs, keys[..|keys| - 1]) == BagOver(bs[..|bs| - 1], ik) + multiset{bs[|bs| - 1]}
    requires OnImage(bs, keys[|keys| - 1]) == OnImage(bs[..|bs| - 1], keys[|keys| - 1])
    ensures BagOver(bs, keys) == BagOver(bs[..|bs| - 1], initKeys) + multiset{bs[|bs| - 1]}
  {
    assert initKeys[..|initKeys| - 1] == ik;
  }

  /** The group of an image without faulty boxes is empty. */
  lemma {:induction false} OnImageEmpty(bs: seq<Box>, k: string)
    requires !HasFaulty(bs, k)
    ensures OnImage(bs, k) == []
    decreases |bs|
  {
    if |bs| > 0 {
      var init := bs[..|bs| - 1];
      forall j | 0 <= j < |init| ensures !(init[j].image == k && init[j].fault != NONE) {
        assert init[j] == bs[j];
      }
      OnImageEmpty(init, k);
    }
  }

  /** Keys other than the last box's image keep their boxes. */
  lemma {:induction false} BagOverSameOther(bs: seq<Box>, keys: seq<string>)
    requires |bs| > 0 && bs[|bs| - 1].image !in keys
    ensures BagOver(bs, keys) == BagOver(bs[..|bs| - 1], keys)
    decreases |keys|
  {
    if |keys| > 0 {
      BagOverSameOther(bs, keys[..|keys| - 1]);
    }
  }

  /** When k occurs once among the keys, the last box joins its group. */
  lemma {:induction false} BagOverBump(bs: seq<Box>, keys: seq<string>)
    requires |bs| > 0 && bs[|bs| - 1].fault != NONE
    requires Increasing(keys) && bs[|bs| - 1].image in keys
    ensures BagOver(bs, keys) == BagOver(bs[..|bs| - 1], keys) + multiset{bs[|bs| - 1]}
    decreases |keys|
  {
    var k := bs[|bs| - 1].image;
    var kinit := keys[..|keys| - 1];
    NotInPrefix(keys);
    if keys[|keys| - 1] == k {
      BagOverSameOther(bs, kinit);
    } else {
      BagOverBump(bs, kinit);
    }
  }
}
