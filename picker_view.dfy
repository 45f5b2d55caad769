/** The selection state of the `PickerView` control, with its view layer removed.

    One object serves one of three modes, fixed when it is built: a list picker over columns of
    labels, a date picker (only its mode is modelled), or an area picker over a province / city /
    district dataset. The calls the control makes into the native wheel (`selectRow`,
    `reloadComponent`) are returned as `WheelEvent`s. */
module Picker {
  import opened Wrappers
  import ListSelection
  import AreaSelection

  datatype PickerType = DataSource | Date | Area

  /** A call into the native wheel: scroll `component` to `row`, or reload `component`. */
  datatype WheelEvent = SelectRow(row: int, component: int) | ReloadComponent(component: int)

  /** What the confirm handler of the active mode receives. The date payload (a date and its
      formatted string) is not modelled. */
  datatype Confirmation =
    | ListConfirm(selectedRows: seq<int>, results: seq<string>)
    | DateConfirm
    | AreaConfirm(province: Option<string>, city: Option<string>, district: Option<string>)

  /** The wheel calls of the clamp pass or of a jump: column k scrolled to `rows[k]`, for k < n. */
  function ScrollEvents(rows: seq<int>, n: nat): (events: seq<WheelEvent>)
    requires n <= |rows|
  {
    seq(n, k requires 0 <= k < n => SelectRow(rows[k], k))
  }

  /** A dependent wheel reset to its first row and reloaded. */
  function ResetWheel(component: int): (events: seq<WheelEvent>)
  {
    [SelectRow(0, component), ReloadComponent(component)]
  }

  class PickerView {
    const pickerType: PickerType
    const areaType: AreaSelection.AreaType

    // List mode
    const dataSourceAry: seq<seq<string>>
    var selectedRowAry: seq<int>
    var selectedResultAry: seq<string>
    var maxValueInRowsAry: Option<seq<int>>

    // Area mode
    const areaSource: seq<AreaSelection.Province>
    var cities: seq<AreaSelection.City>
    var districts: seq<string>
    var province: Option<string>
    var city: Option<string>
    var district: Option<string>

    /** The area fields as one value. */
    function AreaState(): (r: AreaSelection.Selection)
      reads this
    {
      AreaSelection.Selection(cities, districts, province, city, district)
    }

    ghost predicate Valid()
      reads this
    {
      && ListSelection.Consistent(dataSourceAry, selectedRowAry, selectedResultAry)
      && (maxValueInRowsAry.Some? ==> pickerType == DataSource && |maxValueInRowsAry.value| == |dataSourceAry|)
      && (pickerType != DataSource ==> dataSourceAry == [])
      && AreaSelection.Consistent(AreaState())
      && (pickerType == Area && areaType == AreaSelection.ProvinceCity ==> district == None)
    }

    // -------------------------------------------------------------------------------------------
    // Construction

    /** A list picker. The initialiser collects each column's first label and gives up at the first
        empty column, so the state is only valid when no column is empty. */
    constructor FromDataSources(aDataSources: seq<seq<string>>)
      ensures pickerType == DataSource && dataSourceAry == aDataSources && areaSource == []
      ensures selectedRowAry == seq(|aDataSources|, _ => 0)
      ensures selectedResultAry == ListSelection.InitialLabels(aDataSources)
      ensures maxValueInRowsAry == None
      ensures AreaState() == AreaSelection.Unset
      ensures (forall i :: 0 <= i < |aDataSources| ==> aDataSources[i] != []) ==> Valid()
    {
      pickerType := DataSource;
      areaType := AreaSelection.ProvinceCityDistrict;
      dataSourceAry := aDataSources;
      areaSource := [];
      selectedRowAry := seq(|aDataSources|, _ => 0);
      selectedResultAry := [];
      maxValueInRowsAry := None;
      cities, districts, province, city, district := [], [], None, None, None;
      new;
      var index := 0;
      while index < |aDataSources|
        invariant 0 <= index <= |aDataSources|
        invariant |selectedResultAry| == index
        invariant forall k :: 0 <= k < index ==> aDataSources[k] != [] && selectedResultAry[k] == aDataSources[k][0]
        modifies this`selectedResultAry
      {
        if aDataSources[index] == [] {
          ListSelection.InitialLabelsUnique(aDataSources, selectedResultAry);
          return;
        }
        selectedResultAry := selectedResultAry + [aDataSources[index][0]];
        index := index + 1;
      }
      ListSelection.InitialLabelsUnique(aDataSources, selectedResultAry);
      ListSelection.InitialConsistent(aDataSources);
    }

    /** An area picker over an already parsed dataset: the first province, its first city and,
        with three wheels, that city's first district. */
    constructor FromAreaType(anAreaType: AreaSelection.AreaType, aAreaSource: seq<AreaSelection.Province>)
      ensures pickerType == Area && areaType == anAreaType && areaSource == aAreaSource
      ensures dataSourceAry == [] && selectedRowAry == [] && selectedResultAry == [] && maxValueInRowsAry == None
      ensures AreaState() == AreaSelection.Initial(anAreaType, aAreaSource)
      ensures Valid()
    {
      pickerType := Area;
      areaType := anAreaType;
      dataSourceAry := [];
      areaSource := aAreaSource;
      selectedRowAry, selectedResultAry, maxValueInRowsAry := [], [], None;
      cities, districts, province, city, district := [], [], None, None, None;
      new;
      if |areaSource| > 0 {
        var theState := areaSource[0];
        province := theState.name;
        if theState.cities.Some? {
          var theCities := theState.cities.value;
          cities := theCities;
          if |theCities| > 0 {
            var theCity := theCities[0];
            city := theCity.name;
            if areaType == AreaSelection.ProvinceCityDistrict {
              if theCity.areas.Some? {
                var theDistricts := theCity.areas.value;
                districts := theDistricts;
                district := AreaSelection.FirstString(theDistricts);
              }
            }
          }
        }
      }
      AreaSelection.InitialConsistent(anAreaType, aAreaSource);
    }

    /** A date picker; its date, bounds and duration are not modelled. */
    constructor FromDateMode()
      ensures pickerType == Date && dataSourceAry == [] && areaSource == []
      ensures selectedRowAry == [] && selectedResultAry == [] && maxValueInRowsAry == None
      ensures AreaState() == AreaSelection.Unset
      ensures Valid()
    {
      pickerType := Date;
      areaType := AreaSelection.ProvinceCityDistrict;
      dataSourceAry := [];
      areaSource := [];
      selectedRowAry, selectedResultAry, maxValueInRowsAry := [], [], None;
      cities, districts, province, city, district := [], [], None, None, None;
    }

    // -------------------------------------------------------------------------------------------
    // What the host reads

    function NumberOfComponents(): (n: int)
      reads this
      ensures pickerType == DataSource ==> n == |dataSourceAry|
      ensures pickerType == Area ==> (n == 3 <==> areaType.ProvinceCityDistrict?) && (n == 2 <==> areaType.ProvinceCity?)
      ensures pickerType == Date ==> n == 0
    {
      match pickerType
      case DataSource => |dataSourceAry|
      case Area => if areaType == AreaSelection.ProvinceCityDistrict then 3 else 2
      case Date => 0
    }

    function NumberOfRowsInComponent(component: int): (n: int)
      reads this
      requires pickerType == DataSource ==> 0 <= component < |dataSourceAry|
      ensures n >= 0
      ensures pickerType == DataSource ==> n == |dataSourceAry[component]|
      ensures pickerType == Area ==>
        n == if component == 0 then |areaSource|
             else if component == 1 then |cities|
             else if component == 2 && areaType == AreaSelection.ProvinceCityDistrict then |districts|
             else 0
      ensures pickerType == Date ==> n == 0
    {
      match pickerType
      case DataSource => |dataSourceAry[component]|
      case Area =>
        if component == 0 then |areaSource|
        else if component == 1 then |cities|
        else if component == 2 && areaType == AreaSelection.ProvinceCityDistrict then |districts|
        else 0
      case Date => 0
    }

    /** The rows at which the host may ask for a title: the rows the wheel was told it has. */
    predicate TitleRequestable(row: int, component: int)
      reads this
    {
      match pickerType
      case DataSource => 0 <= component < |dataSourceAry| && 0 <= row < |dataSourceAry[component]|
      case Area =>
        && (component == 0 ==> 0 <= row < |areaSource|)
        && (component == 1 ==> 0 <= row < |cities|)
        && (component == 2 && areaType == AreaSelection.ProvinceCityDistrict ==> 0 <= row < |districts|)
      case Date => true
    }

    function TitleForRow(row: int, component: int): (title: Option<string>)
      reads this
      requires TitleRequestable(row, component)
      ensures pickerType == DataSource ==> title == Some(dataSourceAry[component][row])
      ensures pickerType == Area && component == 0 ==> title == areaSource[row].name
      ensures pickerType == Area && component == 1 ==> title == cities[row].name
      ensures pickerType == Area && component == 2 && areaType == AreaSelection.ProvinceCityDistrict ==> title == Some(districts[row])
      ensures pickerType == Area && !(component == 0 || component == 1 || (component == 2 && areaType == AreaSelection.ProvinceCityDistrict)) ==> title == None
      ensures title.Some? ==> pickerType != Date
    {
      match pickerType
      case DataSource => Some(dataSourceAry[component][row])
      case Area =>
        if component == 0 then areaSource[row].name
        else if component == 1 then cities[row].name
        else if component == 2 && areaType == AreaSelection.ProvinceCityDistrict then Some(districts[row])
        else None
      case Date => None
    }

    /** In list mode every wheel shows a valid row, and the title there is the selected label. */
    lemma ListWheelsShowSelection()
      requires Valid() && pickerType == DataSource
      ensures NumberOfComponents() == |selectedRowAry| == |selectedResultAry|
      ensures forall c :: 0 <= c < NumberOfComponents() ==>
        && 0 <= selectedRowAry[c] < NumberOfRowsInComponent(c)
        && TitleRequestable(selectedRowAry[c], c)
        && TitleForRow(selectedRowAry[c], c) == Some(selectedResultAry[c])
    {
    }

    /** In area mode a chosen city is the title of some row of the city wheel, and a chosen
        district the title of some row of the district wheel (which exists only with three). */
    lemma AreaWheelsShowSelection()
      requires Valid() && pickerType == Area
      ensures city.Some? ==> exists row :: 0 <= row < NumberOfRowsInComponent(1) && TitleRequestable(row, 1) && TitleForRow(row, 1) == city
      ensures district.Some? ==>
        && areaType == AreaSelection.ProvinceCityDistrict
        && exists row :: 0 <= row < NumberOfRowsInComponent(2) && TitleRequestable(row, 2) && TitleForRow(row, 2) == district
    {
      if city.Some? {
        var i :| 0 <= i < |cities| && cities[i].name == city;
        assert TitleRequestable(i, 1) && TitleForRow(i, 1) == city;
      }
      if district.Some? {
        var i :| 0 <= i < |districts| && districts[i] == district.value;
        assert TitleRequestable(i, 2) && TitleForRow(i, 2) == district;
      }
    }

    /** The confirm payload: nothing for a list picker without columns; otherwise the mode's
        payload, which in list mode is a consistent selection and with two area wheels never
        carries a district. */
    function Done(): (r: Option<Confirmation>)
      reads this
      ensures r.None? <==> pickerType == DataSource && |dataSourceAry| == 0
      ensures pickerType == DataSource && r.Some? ==> r.value == ListConfirm(selectedRowAry, selectedResultAry)
      ensures pickerType == Area ==> r == Some(AreaConfirm(province, city, district))
      ensures pickerType == Date ==> r == Some(DateConfirm)
      ensures Valid() && r.Some? && r.value.ListConfirm? ==>
        ListSelection.Consistent(dataSourceAry, r.value.selectedRows, r.value.results)
      ensures Valid() && pickerType == Area && areaType == AreaSelection.ProvinceCity ==> r.value.district == None
    {
      match pickerType
      case DataSource => if |dataSourceAry| > 0 then Some(ListConfirm(selectedRowAry, selectedResultAry)) else None
      case Area => Some(AreaConfirm(province, city, district))
      case Date => Some(DateConfirm)
    }

    // -------------------------------------------------------------------------------------------
    // Ceilings and the clamp pass

    /** Ceilings are taken only by a list picker, and only with one ceiling per column. */
    method SetMaxValuesInRows(maxValueInRowAry: seq<int>)
      requires Valid()
      modifies this`maxValueInRowsAry
      ensures Valid()
      ensures maxValueInRowsAry ==
        if pickerType == DataSource && |maxValueInRowAry| == |dataSourceAry| then Some(maxValueInRowAry)
        else old(maxValueInRowsAry)
    {
      if pickerType != DataSource {
        return;
      }
      if |maxValueInRowAry| != |dataSourceAry| {
        return;
      }
      maxValueInRowsAry := Some(maxValueInRowAry);
    }

    /** The clamp pass: from column 0, every column whose row is not below its ceiling is set to
        exactly the ceiling, until the first column below its ceiling ends the pass. */
    method HandleMaxValueInRows() returns (events: seq<WheelEvent>)
      requires Valid()
      requires maxValueInRowsAry.Some? ==> ListSelection.ClampSafe(selectedRowAry, maxValueInRowsAry.value)
      modifies this`selectedRowAry, this`selectedResultAry
      ensures Valid()
      ensures maxValueInRowsAry.None? ==>
        selectedRowAry == old(selectedRowAry) && selectedResultAry == old(selectedResultAry) && events == []
      ensures maxValueInRowsAry.Some? ==>
        var m := maxValueInRowsAry.value;
        && selectedRowAry == ListSelection.ClampedRows(old(selectedRowAry), m)
        && selectedResultAry == ListSelection.ClampedLabels(dataSourceAry, old(selectedRowAry), old(selectedResultAry), m)
        && events == ScrollEvents(m, ListSelection.ClampStop(old(selectedRowAry), m, 0))
    {
      events := [];
      if maxValueInRowsAry.None? {
        return;
      }
      var maxValues := maxValueInRowsAry.value;
      ghost var rows0, labels0 := selectedRowAry, selectedResultAry;
      ghost var stop := ListSelection.ClampStop(rows0, maxValues, 0);
      ListSelection.ClampConsistentAndNonIncreasing(dataSourceAry, rows0, labels0, maxValues);
      var index := 0;
      while index < |dataSourceAry|
        invariant 0 <= index <= stop
        invariant forall k :: 0 <= k < index ==> 0 <= maxValues[k] <= rows0[k] < |dataSourceAry[k]|
        invariant |selectedRowAry| == |rows0| && |selectedResultAry| == |rows0|
        invariant forall k :: 0 <= k < index ==> selectedRowAry[k] == maxValues[k] && selectedResultAry[k] == dataSourceAry[k][maxValues[k]]
        invariant forall k :: index <= k < |rows0| ==> selectedRowAry[k] == rows0[k] && selectedResultAry[k] == labels0[k]
        invariant |events| == index && forall k :: 0 <= k < index ==> events[k] == SelectRow(maxValues[k], k)
      {
        var selectedRow := selectedRowAry[index];
        var maxRow := maxValues[index];
        if selectedRow < maxRow {
          assert index == stop;
          assert selectedRowAry == ListSelection.ClampedRows(rows0, maxValues);
          assert selectedResultAry == ListSelection.ClampedLabels(dataSourceAry, rows0, labels0, maxValues);
          assert events == ScrollEvents(maxValues, stop);
          return;
        }
        events := events + [SelectRow(maxRow, index)];
        selectedRowAry := selectedRowAry[index := maxRow];
        selectedResultAry := selectedResultAry[index := dataSourceAry[index][maxRow]];
        index := index + 1;
      }
    }

    // -------------------------------------------------------------------------------------------
    // Row selection

    /** The rows the wheel reports. In list mode it reports a row of the component, and a ceiling
        the clamp pass will write must be non-negative; in area mode see AreaSelection.Reportable. */
    ghost predicate Reportable(row: int, component: int)
      reads this
    {
      match pickerType
      case DataSource =>
        && 0 <= component < |dataSourceAry| && 0 <= row < |dataSourceAry[component]|
        && |selectedRowAry| == |dataSourceAry|
        && (maxValueInRowsAry.Some? ==> ListSelection.ClampSafe(selectedRowAry[component := row], maxValueInRowsAry.value))
      case Area => AreaSelection.Reportable(areaType, areaSource, AreaState(), row, component)
      case Date => true
    }

    method DidSelectRow(row: int, component: int) returns (events: seq<WheelEvent>)
      requires Valid() && Reportable(row, component)
      modifies this`selectedRowAry, this`selectedResultAry, this`cities, this`districts, this`province, this`city, this`district
      ensures Valid()
      ensures pickerType != DataSource ==> selectedRowAry == old(selectedRowAry) && selectedResultAry == old(selectedResultAry)
      ensures pickerType != Area ==> AreaState() == old(AreaState())
      ensures pickerType == DataSource ==>
        var rows1 := old(selectedRowAry)[component := row];
        var labels1 := old(selectedResultAry)[component := dataSourceAry[component][row]];
        match maxValueInRowsAry
        case None => selectedRowAry == rows1 && selectedResultAry == labels1 && events == []
        case Some(m) =>
          && selectedRowAry == ListSelection.ClampedRows(rows1, m)
          && selectedResultAry == ListSelection.ClampedLabels(dataSourceAry, rows1, labels1, m)
          && events == ScrollEvents(m, ListSelection.ClampStop(rows1, m, 0))
      ensures pickerType == Area ==>
        && AreaState() == AreaSelection.Select(areaType, areaSource, old(AreaState()), row, component)
        && events ==
             if component == 0 && |areaSource| > 0 then
               ResetWheel(1) + (if areaType == AreaSelection.ProvinceCityDistrict then ResetWheel(2) else [])
             else if component == 1 && |old(cities)| > 0 && areaType == AreaSelection.ProvinceCityDistrict then
               ResetWheel(2)
             else []
      ensures pickerType == Date ==> events == []
    {
      events := [];
      match pickerType
      case DataSource =>
        ListSelection.PickConsistent(dataSourceAry, selectedRowAry, selectedResultAry, component, row);
        selectedRowAry := selectedRowAry[component := row];
        selectedResultAry := selectedResultAry[component := dataSourceAry[component][row]];
        if maxValueInRowsAry.Some? {
          events := HandleMaxValueInRows();
        }
      case Area =>
        ghost var before := AreaState();
        AreaSelection.SelectConsistent(areaType, areaSource, before, row, component);
        if areaType == AreaSelection.ProvinceCityDistrict {
          if component == 0 {
            if |areaSource| == 0 {
              return;
            }
            province := areaSource[row].name;
            if areaSource[row].cities.Some? {
              cities := areaSource[row].cities.value;
              city := AreaSelection.FirstCityName(cities);
              var theDistricts := AreaSelection.FirstCityAreas(cities);
              if theDistricts.Some? {
                districts := theDistricts.value;
                district := AreaSelection.FirstString(theDistricts.value);
              } else {
                district := None;
              }
            } else {
              city := None;
              district := None;
            }
            events := ResetWheel(1) + ResetWheel(2);
          } else if component == 1 {
            if |cities| == 0 {
              return;
            }
            city := cities[row].name;
            if cities[row].areas.Some? {
              districts := cities[row].areas.value;
              district := AreaSelection.FirstString(districts);
            } else {
              district := None;
            }
            events := ResetWheel(2);
          } else if component == 2 {
            if |districts| == 0 {
              return;
            }
            district := Some(districts[row]);
          }
        } else {
          if component == 0 {
            if |areaSource| == 0 {
              return;
            }
            province := areaSource[row].name;
            if areaSource[row].cities.Some? {
              cities := areaSource[row].cities.value;
              city := AreaSelection.FirstCityName(cities);
            } else {
              city := None;
            }
            events := ResetWheel(1);
          } else if component == 1 {
            if |cities| == 0 {
              return;
            }
            city := cities[row].name;
          }
        }
      case Date =>
    }

    // -------------------------------------------------------------------------------------------
    // Programmatic jump

    /** The rows the caller may pass: in list mode with one row per column, every row the jump
        applies (those before the first negative one) lies inside its column. */
    ghost predicate Jumpable(aRows: seq<int>)
      reads this
    {
      pickerType == DataSource && |aRows| == |dataSourceAry| ==> ListSelection.JumpSafe(dataSourceAry, aRows)
    }

    /** Scrolls the wheels to `aRows`, in column order, stopping at the first negative row. Does
        nothing outside list mode or when the row count differs from the column count. No clamp
        pass follows. */
    method ShowSelectedRows(aRows: seq<int>) returns (events: seq<WheelEvent>)
      requires Valid() && Jumpable(aRows)
      modifies this`selectedRowAry, this`selectedResultAry
      ensures Valid()
      ensures if pickerType == DataSource && |aRows| == |dataSourceAry| then
          && selectedRowAry == ListSelection.JumpedRows(old(selectedRowAry), aRows)
          && selectedResultAry == ListSelection.JumpedLabels(dataSourceAry, old(selectedResultAry), aRows)
          && events == ScrollEvents(aRows, ListSelection.FirstNegative(aRows))
        else
          selectedRowAry == old(selectedRowAry) && selectedResultAry == old(selectedResultAry) && events == []
    {
      events := [];
      if pickerType != DataSource {
        return;
      }
      if |aRows| != |dataSourceAry| {
        return;
      }
      ghost var rows0, labels0 := selectedRowAry, selectedResultAry;
      ghost var stop := ListSelection.FirstNegative(aRows);
      ListSelection.JumpConsistent(dataSourceAry, rows0, labels0, aRows);
      var index := 0;
      while index < |aRows|
        invariant 0 <= index <= stop
        invariant |selectedRowAry| == |rows0| && |selectedResultAry| == |rows0|
        invariant forall k :: 0 <= k < index ==> selectedRowAry[k] == aRows[k] && selectedResultAry[k] == dataSourceAry[k][aRows[k]]
        invariant forall k :: index <= k < |rows0| ==> selectedRowAry[k] == rows0[k] && selectedResultAry[k] == labels0[k]
        invariant |events| == index && forall k :: 0 <= k < index ==> events[k] == SelectRow(aRows[k], k)
      {
        var selectedRow := aRows[index];
        if selectedRow < 0 {
          return;
        }
        var selectedResult := dataSourceAry[index][selectedRow];
        events := events + [SelectRow(selectedRow, index)];
        selectedRowAry := selectedRowAry[index := selectedRow];
        selectedResultAry := selectedResultAry[index := selectedResult];
        index := index + 1;
      }
    }
  }
}
