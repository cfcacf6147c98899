// The vehicle record shown on the dashboard, and the model title both row
// components derive from it.

module Workshop {
  import opened Wrappers
  import opened Text
  import opened Delivery

  /** One car in the workshop yard. `stage` is free text (a Trello list name);
      `deliveryDate` and `lastActivity` arrive already formatted. */
  datatype Vehicle = Vehicle(
    id: string,
    model: string,
    plate: string,
    client: string,
    stage: string,
    deliveryDate: string,
    rawDueDate: Option<DueDate>,
    mechanic: string,
    lastActivity: string)

  /** What the dashboard shows: a board title and the rows. */
  datatype WorkshopData = WorkshopData(boardName: string, vehicles: seq<Vehicle>)

  const BrandPrefix := "Land Rover"

  /** `model.replace('Land Rover', '').trim()`: the first occurrence of the brand is
      cut out, then white space is trimmed from both ends. */
  function ModelTitle(model: string): (r: string)
    ensures IsTrimmed(r)
    ensures !Contains(model, BrandPrefix) ==> r == Trim(model)
    ensures Contains(model, BrandPrefix) ==>
      exists m :: IsFirstOccurrence(model, BrandPrefix, m) && r == Trim(model[..m] + model[m + |BrandPrefix|..])
    ensures |r| <= |model|
  {
    Trim(RemoveFirst(model, BrandPrefix))
  }

  /** A title is left as it is by a second pass unless it still names the brand. */
  lemma ModelTitleStable(model: string)
    requires !Contains(ModelTitle(model), BrandPrefix)
    ensures ModelTitle(ModelTitle(model)) == ModelTitle(model)
  {
    TrimOfTrimmed(ModelTitle(model));
  }

  lemma EvoqueWithoutBrand()
    ensures RemoveFirst("Land Rover Evoque", BrandPrefix) == " Evoque"
  {
    var s := "Land Rover Evoque";
    assert s[0..10] == BrandPrefix;
    assert MatchesAt(s, BrandPrefix, 0);
    assert IndexFrom(s, BrandPrefix, 0) == Some(0);
    assert s[..0] + s[10..] == " Evoque";
  }

  lemma EvoqueTrimmed()
    ensures Trim(" Evoque") == "Evoque"
  {
    var t := " Evoque";
    assert TrimStartFrom(t, 1) == 1;
    assert TrimStartFrom(t, 0) == 1;
    assert TrimEndFrom(t, 1, 7) == 7;
    assert t[1..7] == "Evoque";
  }

  /** The brand and the space after it go: "Land Rover Evoque" shows as "Evoque". */
  lemma EvoqueTitle()
    ensures ModelTitle("Land Rover Evoque") == "Evoque"
  {
    EvoqueWithoutBrand();
    EvoqueTrimmed();
  }
}
