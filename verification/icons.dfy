/**
 `determineIconTexture` (src/labels.cpp:177-211): the icon texture of a label,
 chosen by an ordered keyword table. A keyword matches when it occurs in the
 subtype or in the type; the first matching keyword, in table order, decides.
 */
module Icons {

  import opened Text

  /** One row of the table: a keyword and the texture file it selects. */
  datatype Rule = Rule(keyword: string, icon: string)

  /** The texture used when no keyword matches. */
  const DefaultIcon: string := "default.png"

  /** The table, in the source's order: transport, education, food and drink, administration. */
  const Rules: seq<Rule> := [
    Rule("bus_stop", "bus.png"),
    Rule("tram_stop", "tram.png"),
    Rule("subway_entrance", "subway.png"),
    Rule("station", "train.png"),
    Rule("halt", "default.png"),
    Rule("university", "university.png"),
    Rule("college", "university.png"),
    Rule("school", "school.png"),
    Rule("kindergarten", "school.png"),
    Rule("bar", "bar.png"),
    Rule("pub", "bar.png"),
    Rule("cafe", "cafe.png"),
    Rule("restaurant", "restaurant.png"),
    Rule("fast_food", "restaurant.png"),
    Rule("townhall", "hall.png"),
    Rule("government", "hall.png"),
    Rule("public_building", "hall.png")
  ]

  /** Every texture the classifier can name. */
  const IconKeys: set<string> := {
    "bus.png", "tram.png", "subway.png", "train.png", "default.png", "university.png",
    "school.png", "bar.png", "cafe.png", "restaurant.png", "hall.png"
  }

  /** The `matches` lambda: the keyword occurs in the subtype or in the type. */
  predicate Matches(kind: string, subtype: string, keyword: string) {
    Contains(subtype, keyword) || Contains(kind, keyword)
  }

  /** The icon of the first rule of `rules` that matches, or the default. */
  function FirstMatch(rules: seq<Rule>, kind: string, subtype: string): (icon: string)
    ensures icon == DefaultIcon || exists i :: 0 <= i < |rules| && rules[i].icon == icon
  {
    if rules == [] then DefaultIcon
    else if Matches(kind, subtype, rules[0].keyword) then rules[0].icon
    else FirstMatch(rules[1..], kind, subtype)
  }

  /** `determineIconTexture(type, subtype)`: total, and always one of the known textures. */
  function Classify(kind: string, subtype: string): (icon: string)
    ensures icon in IconKeys
    ensures icon != ""
  {
    FirstMatch(Rules, kind, subtype)
  }

  /**
   Priority: when rule i is the first that matches, its icon is the answer,
   whatever later rules would also match.
   */
  lemma {:induction false} FirstMatchPriority(rules: seq<Rule>, kind: string, subtype: string, i: nat)
    requires i < |rules| && Matches(kind, subtype, rules[i].keyword)
    requires forall j :: 0 <= j < i ==> !Matches(kind, subtype, rules[j].keyword)
    ensures FirstMatch(rules, kind, subtype) == rules[i].icon
  {
    if i > 0 {
      assert !Matches(kind, subtype, rules[0].keyword);
      FirstMatchPriority(rules[1..], kind, subtype, i - 1);
    }
  }

  /** With no matching keyword the answer is the default. */
  lemma {:induction false} FirstMatchNone(rules: seq<Rule>, kind: string, subtype: string)
    requires forall j :: 0 <= j < |rules| ==> !Matches(kind, subtype, rules[j].keyword)
    ensures FirstMatch(rules, kind, subtype) == DefaultIcon
  {
    if rules != [] {
      assert !Matches(kind, subtype, rules[0].keyword);
      FirstMatchNone(rules[1..], kind, subtype);
    }
  }

  /** The classifier picks the icon of the first table rule that matches. */
  lemma ClassifyPriority(kind: string, subtype: string, i: nat)
    requires i < |Rules| && Matches(kind, subtype, Rules[i].keyword)
    requires forall j :: 0 <= j < i ==> !Matches(kind, subtype, Rules[j].keyword)
    ensures Classify(kind, subtype) == Rules[i].icon
  {
    FirstMatchPriority(Rules, kind, subtype, i);
  }

  /** The classifier answers `default.png` when no keyword occurs in either text. */
  lemma ClassifyDefault(kind: string, subtype: string)
    requires forall j :: 0 <= j < |Rules| ==> !Matches(kind, subtype, Rules[j].keyword)
    ensures Classify(kind, subtype) == DefaultIcon
  {
    FirstMatchNone(Rules, kind, subtype);
  }

  /** A bus stop gets the bus icon, in whichever of the two texts it is named. */
  lemma ClassifyBusStop()
    ensures Classify("bus_stop", "") == "bus.png"
    ensures Classify("", "bus_stop") == "bus.png"
  {
    assert Contains("bus_stop", "bus_stop");
    ClassifyPriority("bus_stop", "", 0);
    ClassifyPriority("", "bus_stop", 0);
  }

  /**
   The `public_building` rule never decides: any text containing
   `public_building` also contains `pub`, which comes earlier in the table,
   so such labels get a bar icon or an earlier one, never a hall icon.
   */
  lemma PublicBuildingShadowed(kind: string, subtype: string)
    requires Matches(kind, subtype, "public_building")
    ensures Classify(kind, subtype) != "hall.png"
  {
    assert Contains("public_building", "pub");
    if Contains(subtype, "public_building") {
      ContainsTransitive(subtype, "public_building", "pub");
    } else {
      ContainsTransitive(kind, "public_building", "pub");
    }
    assert Rules[10].keyword == "pub";
    ShadowedBefore(Rules, kind, subtype, 10);
    EarlyIconsAreNotHall();
  }

  /** None of the first eleven rules selects `hall.png`. */
  lemma EarlyIconsAreNotHall()
    ensures forall j :: 0 <= j <= 10 ==> Rules[j].icon != "hall.png"
  {
  }

  /**
   When rule i matches, the answer comes from one of the rules 0..i.
   */
  lemma {:induction false} ShadowedBefore(rules: seq<Rule>, kind: string, subtype: string, i: nat)
    requires i < |rules| && Matches(kind, subtype, rules[i].keyword)
    ensures exists j :: 0 <= j <= i && FirstMatch(rules, kind, subtype) == rules[j].icon
  {
    if !Matches(kind, subtype, rules[0].keyword) {
      ShadowedBefore(rules[1..], kind, subtype, i - 1);
      var j :| 0 <= j <= i - 1 && FirstMatch(rules[1..], kind, subtype) == rules[1..][j].icon;
      assert rules[1..][j] == rules[j + 1];
    } else {
      assert FirstMatch(rules, kind, subtype) == rules[0].icon;
    }
  }
}
