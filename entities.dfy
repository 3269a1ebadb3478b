/** The stored records (the EF entity classes) and the metric DTOs, as values. */
module Entities {
  import opened Common

  datatype PlanType = FREE | TRIAL | PRO

  /** A user. The refresh-token column is required, so the token is a plain string,
      empty when Google supplied none. */
  datatype User = User(
    id: Guid,
    googleId: string,
    email: string,
    name: string,
    picture: Option<string>,
    avatar: Option<string>,
    plan: PlanType,
    googleRefreshToken: string,
    createdAt: Timestamp,
    updatedAt: Timestamp,
    lastLoginAt: Option<Timestamp>)

  /** A group of sites; each user has one default group made at first sign-in. */
  datatype Group = Group(
    id: Guid,
    userId: Guid,
    displayName: string,
    emailOwner: string,
    isDefault: bool,
    createdAt: Timestamp)

  /** A user-defined label; the "All" tag made at first sign-in is not deletable. */
  datatype Tag = Tag(
    id: Guid,
    userId: Guid,
    name: string,
    isDeletable: bool,
    createdAt: Timestamp)

  /** A Search Console property of a user. */
  datatype Site = Site(
    id: Guid,
    userId: Guid,
    groupId: Option<Guid>,
    propertyId: string,
    domain: string,
    isFavorite: bool,
    lastSyncedAt: Option<Timestamp>,
    syncError: Option<string>,
    createdAt: Timestamp)

  /** A link between a site and a tag. */
  datatype SiteTag = SiteTag(siteId: Guid, tagId: Guid, createdAt: Timestamp)

  /** One day of Search Console figures for a site. The surrogate `Id` is not modelled:
      no handler reads it, and rows are identified by (site, date). */
  datatype SiteMetric = SiteMetric(
    siteId: Guid,
    date: Date,
    clicks: int,
    impressions: int,
    ctr: real,
    avgPosition: real,
    keywordsCount: int,
    createdAt: Timestamp)

  /** The dashboard settings remembered for a user. */
  datatype UserPreference = UserPreference(
    id: Guid,
    userId: Guid,
    selectedMetrics: string,
    lastRangePreset: string,
    lastGroupId: Option<Guid>,
    lastTagId: Option<Guid>,
    updatedAt: Timestamp)

  /** Aggregated figures (`MetricDto`). */
  datatype MetricDto = MetricDto(
    clicks: int,
    impressions: int,
    ctr: real,
    avgPosition: real,
    keywordsCount: int)

  /** The all-zero `new MetricDto()`. */
  const EmptyMetrics := MetricDto(0, 0, 0.0, 0.0, 0)

  /** One point of a time series (`TimeSeriesPointDto`). The source keys points by the
      text `yyyy-MM-dd` of the date; that text is a one-to-one, order-preserving image of
      the day, so the model keys them by the day itself. */
  datatype TimeSeriesPoint = TimeSeriesPoint(
    date: Date,
    clicks: int,
    impressions: int,
    ctr: real,
    avgPosition: real,
    keywordsCount: int)

  /** One day of figures as the Search Console client returns it. */
  datatype MetricData = MetricData(
    date: Date,
    clicks: int,
    impressions: int,
    ctr: real,
    avgPosition: real)

  /** A site as the dashboard lists it (`SiteCommand`, formerly `SiteDto`). `tags` holds
      one label per tag link of the site. */
  datatype SiteEntry = SiteEntry(
    id: Guid,
    propertyId: string,
    domain: string,
    totals: MetricDto,
    timeSeries: seq<TimeSeriesPoint>,
    tags: seq<string>,
    isFavorite: bool,
    lastSynced: Option<Timestamp>,
    syncError: Option<string>)
}
