/** The cascading selection of the area (province / city / district) picker, on values.

    The dataset is the parsed property list: a sequence of provinces, each a dictionary whose
    `"state"` key holds its name and whose `"cities"` key holds its cities; each city a dictionary
    whose `"city"` key holds its name and whose `"areas"` key holds its districts. Every key is read
    with a conditional cast, so each is an `Option` here. */
module AreaSelection {
  import opened Wrappers

  datatype City = City(name: Option<string>, areas: Option<seq<string>>)

  datatype Province = Province(name: Option<string>, cities: Option<seq<City>>)

  /** Three wheels (province, city, district) or two (province, city). */
  datatype AreaType = ProvinceCityDistrict | ProvinceCity

  /** The picker's area fields: the current city and district lists and the current names. */
  datatype Selection = Selection(
    cities: seq<City>,
    districts: seq<string>,
    province: Option<string>,
    city: Option<string>,
    district: Option<string>)

  /** The fields before the initialiser fills them. */
  const Unset := Selection([], [], None, None, None)

  function FirstString(ds: seq<string>): (r: Option<string>)
  {
    if ds == [] then None else Some(ds[0])
  }

  /** `cities.first?["city"] as? String` */
  function FirstCityName(cs: seq<City>): (r: Option<string>)
  {
    if cs == [] then None else cs[0].name
  }

  /** `cities.first?["areas"] as? [String]` */
  function FirstCityAreas(cs: seq<City>): (r: Option<seq<string>>)
  {
    if cs == [] then None else cs[0].areas
  }

  /** Re-deriving the district wheel from a city's areas: when the city has an areas list it
      replaces `districts` and its first entry becomes `district`; otherwise only `district` is
      cleared and the old list stays. */
  function WithAreas(s: Selection, areas: Option<seq<string>>): (r: Selection)
  {
    match areas
    case Some(ds) => s.(districts := ds, district := FirstString(ds))
    case None => s.(district := None)
  }

  /** The initialiser: the first province, its first city and (with three wheels) that city's
      first district. A missing key leaves the fields below it unset. */
  function Initial(areaType: AreaType, source: seq<Province>): (r: Selection)
    ensures r.province == (if source == [] then None else source[0].name)
    ensures r.cities == (if source != [] && source[0].cities.Some? then source[0].cities.value else [])
    ensures r.city == FirstCityName(r.cities)
    ensures areaType == ProvinceCity ==> r.districts == [] && r.district == None
    ensures areaType == ProvinceCityDistrict ==>
      match FirstCityAreas(r.cities)
      case Some(ds) => r.districts == ds && r.district == FirstString(ds)
      case None => r.districts == [] && r.district == None
  {
    if source == [] then Unset
    else
      var p := source[0];
      match p.cities
      case None => Unset.(province := p.name)
      case Some(cs) =>
        if cs == [] then Unset.(province := p.name, cities := cs)
        else
          var s := Unset.(province := p.name, cities := cs, city := cs[0].name);
          match cs[0].areas
          case Some(ds) => if areaType == ProvinceCityDistrict then s.(districts := ds, district := FirstString(ds)) else s
          case None => s
  }

  /** Selecting province `row` (the list of provinces is non-empty). */
  function SelectProvince(areaType: AreaType, source: seq<Province>, s: Selection, row: int): (r: Selection)
    requires 0 <= row < |source|
    ensures r.province == source[row].name
    ensures r.cities == (if source[row].cities.Some? then source[row].cities.value else s.cities)
    ensures r.city == (if source[row].cities.Some? then FirstCityName(r.cities) else None)
    ensures areaType == ProvinceCity ==> r.districts == s.districts && r.district == s.district
  {
    var p := source[row];
    match p.cities
    case Some(cs) =>
      var s1 := s.(province := p.name, cities := cs, city := FirstCityName(cs));
      if areaType == ProvinceCityDistrict then WithAreas(s1, FirstCityAreas(cs)) else s1
    case None =>
      if areaType == ProvinceCityDistrict then s.(province := p.name, city := None, district := None)
      else s.(province := p.name, city := None)
  }

  /** Selecting city `row` of the current city list. */
  function SelectCity(areaType: AreaType, s: Selection, row: int): (r: Selection)
    requires 0 <= row < |s.cities|
    ensures r.city == s.cities[row].name
    ensures r.province == s.province && r.cities == s.cities
    ensures areaType == ProvinceCity ==> r.districts == s.districts && r.district == s.district
    ensures areaType == ProvinceCityDistrict && s.cities[row].areas.None? ==> r.districts == s.districts && r.district == None
  {
    var s1 := s.(city := s.cities[row].name);
    if areaType == ProvinceCityDistrict then WithAreas(s1, s.cities[row].areas) else s1
  }

  /** Selecting district `row` of the current district list. */
  function SelectDistrict(s: Selection, row: int): (r: Selection)
    requires 0 <= row < |s.districts|
    ensures r.district.Some? && r.district.value in s.districts
    ensures r.province == s.province && r.city == s.city && r.cities == s.cities && r.districts == s.districts
  {
    s.(district := Some(s.districts[row]))
  }

  /** The rows the wheel can report: inside the component's current list whenever that list is
      non-empty (an empty list is guarded in the source, so any row is accepted there). */
  predicate Reportable(areaType: AreaType, source: seq<Province>, s: Selection, row: int, component: int)
  {
    && (component == 0 && |source| > 0 ==> 0 <= row < |source|)
    && (component == 1 && |s.cities| > 0 ==> 0 <= row < |s.cities|)
    && (component == 2 && areaType == ProvinceCityDistrict && |s.districts| > 0 ==> 0 <= row < |s.districts|)
  }

  /** The row-selection handler of the area picker. */
  function Select(areaType: AreaType, source: seq<Province>, s: Selection, row: int, component: int): (r: Selection)
    requires Reportable(areaType, source, s, row, component)
    ensures component != 0 ==> r.province == s.province && r.cities == s.cities
    ensures component != 0 && component != 1 ==> r.city == s.city && r.districts == s.districts
    ensures areaType == ProvinceCity ==> r.districts == s.districts && r.district == s.district
    ensures (component < 0 || component > 2) ==> r == s
  {
    if component == 0 then
      if |source| == 0 then s else SelectProvince(areaType, source, s, row)
    else if component == 1 then
      if |s.cities| == 0 then s else SelectCity(areaType, s, row)
    else if component == 2 && areaType == ProvinceCityDistrict then
      if |s.districts| == 0 then s else SelectDistrict(s, row)
    else s
  }

  // ---------------------------------------------------------------------------------------------
  // What a selection does

  /** Province selection: the province name is the entry's; with a cities list the city wheel is
      replaced and its first city (if any) is chosen, and with three wheels the district wheel
      follows that city's areas (kept as it was when that city has none); without a cities list the
      lists stay as they were and the names below are cleared. */
  lemma SelectProvinceEffect(areaType: AreaType, source: seq<Province>, s: Selection, row: int)
    requires 0 <= row < |source|
    ensures var r := Select(areaType, source, s, row, 0);
      && r.province == source[row].name
      && (source[row].cities.Some? ==>
            var cs := source[row].cities.value;
            && r.cities == cs
            && (cs == [] ==> r.city == None)
            && (cs != [] ==> r.city == cs[0].name)
            && (areaType == ProvinceCityDistrict ==>
                  if cs != [] && cs[0].areas.Some? then
                    r.districts == cs[0].areas.value && r.district == FirstString(cs[0].areas.value)
                  else
                    r.districts == s.districts && r.district == None))
      && (source[row].cities.None? ==>
            r.cities == s.cities && r.districts == s.districts && r.city == None
            && (areaType == ProvinceCityDistrict ==> r.district == None))
      && (areaType == ProvinceCity ==> r.districts == s.districts && r.district == s.district)
  {
  }

  /** City selection: the city name is the row's; with three wheels the district wheel follows that
      city's areas, and the province and the city list never change. */
  lemma SelectCityEffect(areaType: AreaType, source: seq<Province>, s: Selection, row: int)
    requires 0 <= row < |s.cities|
    ensures var r := Select(areaType, source, s, row, 1);
      && r.city == s.cities[row].name
      && r.province == s.province && r.cities == s.cities
      && (areaType == ProvinceCityDistrict ==>
            match s.cities[row].areas
            case Some(ds) => r.districts == ds && (r.district == None <==> ds == []) && (ds != [] ==> r.district == Some(ds[0]))
            case None => r.districts == s.districts && r.district == None)
      && (areaType == ProvinceCity ==> r.districts == s.districts && r.district == s.district)
  {
  }

  /** District selection sets the district name and nothing else. */
  lemma SelectDistrictEffect(source: seq<Province>, s: Selection, row: int)
    requires 0 <= row < |s.districts|
    ensures Select(ProvinceCityDistrict, source, s, row, 2) == s.(district := Some(s.districts[row]))
  {
  }

  /** Selecting in a component whose current list is empty, or in a component the picker does not
      have, changes nothing. */
  lemma SelectEmptyIsNoop(areaType: AreaType, source: seq<Province>, s: Selection, row: int, component: int)
    requires Reportable(areaType, source, s, row, component)
    requires || (component == 0 && source == [])
             || (component == 1 && s.cities == [])
             || (component == 2 && s.districts == [])
             || component < 0 || component > 2
             || (component == 2 && areaType == ProvinceCity)
    ensures Select(areaType, source, s, row, component) == s
  {
  }

  /** Selecting the same row in the same component twice ends where selecting it once does. */
  lemma {:induction false} SelectIdempotent(areaType: AreaType, source: seq<Province>, s: Selection, row: int, component: int)
    requires Reportable(areaType, source, s, row, component)
    ensures Reportable(areaType, source, Select(areaType, source, s, row, component), row, component)
    ensures Select(areaType, source, Select(areaType, source, s, row, component), row, component)
         == Select(areaType, source, s, row, component)
  {
    var r := Select(areaType, source, s, row, component);
    if component == 0 && |source| > 0 {
      match source[row].cities
      case Some(cs) =>
      case None =>
    } else if component == 1 && |s.cities| > 0 {
      assert r.cities == s.cities;
      match s.cities[row].areas
      case Some(ds) =>
      case None =>
    }
  }

  // ---------------------------------------------------------------------------------------------
  // The invariant the names keep

  /** A chosen city is a city of the current city list, and a chosen district is in the current
      district list. */
  predicate Consistent(s: Selection)
  {
    && (s.city.Some? ==> exists i :: 0 <= i < |s.cities| && s.cities[i].name == s.city)
    && (s.district.Some? ==> s.district.value in s.districts)
  }

  lemma InitialConsistent(areaType: AreaType, source: seq<Province>)
    ensures Consistent(Initial(areaType, source))
  {
    var r := Initial(areaType, source);
    if r.city.Some? {
      assert r.cities[0].name == r.city;
    }
  }

  lemma {:induction false} SelectConsistent(areaType: AreaType, source: seq<Province>, s: Selection, row: int, component: int)
    requires Consistent(s) && Reportable(areaType, source, s, row, component)
    ensures Consistent(Select(areaType, source, s, row, component))
  {
    var r := Select(areaType, source, s, row, component);
    if component == 0 && |source| > 0 {
      if source[row].cities.Some? && r.city.Some? {
        assert r.cities[0].name == r.city;
      }
    } else if component == 1 && |s.cities| > 0 {
      assert r.cities[row].name == r.city;
    }
  }

  // ---------------------------------------------------------------------------------------------
  // Sequences of selections

  /** A sequence of (row, component) selections applied in order; `None` when some selection
      reports a row outside a non-empty list (where the source would trap). */
  function Replay(areaType: AreaType, source: seq<Province>, s: Selection, picks: seq<(int, int)>): (r: Option<Selection>)
    decreases |picks|
  {
    if picks == [] then Some(s)
    else if !Reportable(areaType, source, s, picks[0].0, picks[0].1) then None
    else Replay(areaType, source, Select(areaType, source, s, picks[0].0, picks[0].1), picks[1..])
  }

  /** With two wheels the district is never assigned: it is unset after construction and after any
      sequence of selections, so the confirm payload never carries one. */
  lemma {:induction false} TwoLevelDistrictStaysUnset(source: seq<Province>, picks: seq<(int, int)>, s: Selection)
    requires s.district == None
    ensures Initial(ProvinceCity, source).district == None
    ensures Replay(ProvinceCity, source, s, picks).Some? ==> Replay(ProvinceCity, source, s, picks).value.district == None
    decreases |picks|
  {
    if picks != [] && Reportable(ProvinceCity, source, s, picks[0].0, picks[0].1) {
      var s1 := Select(ProvinceCity, source, s, picks[0].0, picks[0].1);
      assert s1.district == s.district;
      TwoLevelDistrictStaysUnset(source, picks[1..], s1);
    }
  }

  /** The invariant holds after construction followed by any sequence of selections. */
  lemma {:induction false} ReplayConsistent(areaType: AreaType, source: seq<Province>, s: Selection, picks: seq<(int, int)>)
    requires Consistent(s)
    ensures Replay(areaType, source, s, picks).Some? ==> Consistent(Replay(areaType, source, s, picks).value)
    decreases |picks|
  {
    if picks != [] && Reportable(areaType, source, s, picks[0].0, picks[0].1) {
      SelectConsistent(areaType, source, s, picks[0].0, picks[0].1);
      ReplayConsistent(areaType, source, Select(areaType, source, s, picks[0].0, picks[0].1), picks[1..]);
    }
  }

  // ---------------------------------------------------------------------------------------------
  // Coherence of the confirmed names on complete data

  /** Every province carries a non-empty city list and every city a district list. */
  predicate Full(source: seq<Province>)
  {
    forall p :: 0 <= p < |source| ==>
      && source[p].cities.Some? && source[p].cities.value != []
      && forall c :: 0 <= c < |source[p].cities.value| ==> source[p].cities.value[c].areas.Some?
  }

  /** The chosen province owns the current city list and the chosen city owns the current
      district list, so the confirmed names belong to one region. */
  predicate Coherent(source: seq<Province>, s: Selection)
  {
    && (exists p :: 0 <= p < |source| && source[p].name == s.province && source[p].cities == Some(s.cities))
    && (exists c :: 0 <= c < |s.cities| && s.cities[c].name == s.city && s.cities[c].areas == Some(s.districts))
  }

  lemma InitialCoherent(source: seq<Province>)
    requires Full(source) && source != []
    ensures Coherent(source, Initial(ProvinceCityDistrict, source))
  {
    var r := Initial(ProvinceCityDistrict, source);
    assert source[0].name == r.province && source[0].cities == Some(r.cities);
    assert r.cities[0].name == r.city && r.cities[0].areas == Some(r.districts);
  }

  /** On complete data every selection with three wheels keeps the names coherent. */
  lemma SelectCoherent(source: seq<Province>, s: Selection, row: int, component: int)
    requires Full(source) && Coherent(source, s)
    requires Reportable(ProvinceCityDistrict, source, s, row, component)
    ensures Coherent(source, Select(ProvinceCityDistrict, source, s, row, component))
  {
    var r := Select(ProvinceCityDistrict, source, s, row, component);
    if component == 0 {
      assert source[row].name == r.province && source[row].cities == Some(r.cities);
      assert r.cities[0].name == r.city && r.cities[0].areas == Some(r.districts);
    } else if component == 1 {
      var p :| 0 <= p < |source| && source[p].name == s.province && source[p].cities == Some(s.cities);
      assert source[p].cities.value[row].areas.Some?;
      assert source[p].name == r.province && source[p].cities == Some(r.cities);
      assert r.cities[row].name == r.city && r.cities[row].areas == Some(r.districts);
    }
  }

  /** Coherence survives any sequence of selections on complete data. */
  lemma {:induction false} ReplayCoherent(source: seq<Province>, s: Selection, picks: seq<(int, int)>)
    requires Full(source) && Coherent(source, s)
    ensures Replay(ProvinceCityDistrict, source, s, picks).Some? ==> Coherent(source, Replay(ProvinceCityDistrict, source, s, picks).value)
    decreases |picks|
  {
    if picks != [] && Reportable(ProvinceCityDistrict, source, s, picks[0].0, picks[0].1) {
      SelectCoherent(source, s, picks[0].0, picks[0].1);
      ReplayCoherent(source, Select(ProvinceCityDistrict, source, s, picks[0].0, picks[0].1), picks[1..]);
    }
  }
}
