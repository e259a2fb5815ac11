/** The two record shapes of the ranking engine (src/lib/data.ts). */
module Records {

  /** One row of a platform's weekly top-10 list (OTTData). The platform is
      kept as text: the loader casts the first CSV column without checking it
      against the four known platform names. */
  datatype OttData = OttData(
    platform: string,
    title: string,
    rank: int,
    genre: string,
    weeklyViews: int,
    region: string,
    week: string)

  /** One title of the cross-platform leaderboard (IntegratedRanking). */
  datatype IntegratedRanking = IntegratedRanking(
    title: string,
    score: int,
    platforms: seq<string>,
    mainPlatform: string,
    genre: string,
    totalViews: int,
    platformCount: int)

  /** The genre of every record, in input order. */
  function GenresOf(data: seq<OttData>): seq<string>
  {
    seq(|data|, k requires 0 <= k < |data| => data[k].genre)
  }

  /** The week of every record, in input order. */
  function WeeksOf(data: seq<OttData>): seq<string>
  {
    seq(|data|, k requires 0 <= k < |data| => data[k].week)
  }
}
