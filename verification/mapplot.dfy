/** `plot_map_for_year`: the year filter over the joined forecast/boundary table and its
    effect on the matplotlib axes. Rendering itself is not modelled; the axes are a record
    of what has been drawn on them. */
module MapPlot {
  import opened Wrappers
  import opened Seqs
  import opened Frames

  /** A row of the table joined on `iso3 == country`: the Code, the date and the trend
      (the boundary polygon is not modelled). */
  datatype MapRow = MapRow(code: string, ds: Date, trend: real)

  /** A choropleth of `rows` coloured by `trend` (colour map "OrRd", horizontal legend
      labelled "CO2 Emissions Per GDP"). */
  datatype Layer = Choropleth(rows: seq<MapRow>)

  /** The state of a matplotlib axes: the layers drawn on it, whether its frame is shown,
      and the year named by its title "CO2 Emissions by Country in <year>", if it has one. */
  datatype Axes = Axes(layers: seq<Layer>, axisShown: bool, titleYear: Option<int>)

  /** `data['ds'].dt.year == year`. */
  function InYear(year: int): MapRow -> bool
  {
    (r: MapRow) => r.ds.year == year
  }

  /** `yearly_data = data[data['ds'].dt.year == year]`: exactly the rows dated in `year`,
      in their original order. */
  function YearRows(data: seq<MapRow>, year: int): (yearly: seq<MapRow>)
    ensures IsSubseq(yearly, data)
    ensures SelectsExactly(yearly, data, InYear(year))
    ensures forall r :: r in yearly <==> r in data && r.ds.year == year
  {
    FilterIsSubseq(data, InYear(year));
    FilterMultiset(data, InYear(year));
    SelectsMembers(Filter(data, InYear(year)), data, InYear(year));
    Filter(data, InYear(year))
  }

  /** `plot_map_for_year(ax, data, year)`. When no row is dated in `year` the axes are left
      exactly as they were; otherwise they are cleared and then hold one choropleth of the
      year's rows, a hidden frame and a title naming the year. */
  function PlotMapForYear(ax: Axes, data: seq<MapRow>, year: int): (ax': Axes)
    ensures (forall i :: 0 <= i < |data| ==> data[i].ds.year != year) ==> ax' == ax
    ensures (exists i :: 0 <= i < |data| && data[i].ds.year == year) ==>
              && |ax'.layers| == 1
              && ax'.layers[0].rows != []
              && IsSubseq(ax'.layers[0].rows, data)
              && SelectsExactly(ax'.layers[0].rows, data, InYear(year))
              && (forall r :: r in ax'.layers[0].rows <==> r in data && r.ds.year == year)
              && !ax'.axisShown
              && ax'.titleYear == Some(year)
  {
    var yearly := YearRows(data, year);
    YearRowsEmpty(data, year);
    if yearly == [] then
      ax
    else
      var cleared := Axes([], true, None);
      var drawn := cleared.(layers := cleared.layers + [Choropleth(yearly)]);
      drawn.(axisShown := false, titleYear := Some(year))
  }

  /** Whether the map is drawn depends only on whether some row falls in the year. */
  lemma YearRowsEmpty(data: seq<MapRow>, year: int)
    ensures YearRows(data, year) == [] <==> forall i :: 0 <= i < |data| ==> data[i].ds.year != year
  {
    var yearly := YearRows(data, year);
    if yearly == [] {
      forall i | 0 <= i < |data| ensures data[i].ds.year != year {
        assert data[i] in data;
      }
    } else {
      assert yearly[0] in yearly;
    }
  }

  /** Because the axes are cleared first, drawing the same year twice leaves the modelled
      axes state (layers, frame, title) as drawing it once does. */
  lemma PlotTwiceIsPlotOnce(ax: Axes, data: seq<MapRow>, year: int)
    ensures PlotMapForYear(PlotMapForYear(ax, data, year), data, year) == PlotMapForYear(ax, data, year)
  {
  }
}
