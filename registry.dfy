/**
 * The repository registry: a map from repository class to its one instance,
 * filled lazily on the first request for a class, and the six convenience
 * getters that go through it.
 */
module Registry {

  /** The repository classes the getters can ask for. */
  datatype RepositoryClass =
    | CompanyRepo
    | AnnouncementRepo
    | PriceDataRepo
    | FundamentalDataRepo
    | SignalRepo
    | BacktestRepo

  /** A repository instance; its only state is the class it was built from. */
  class Repository {
    const kind: RepositoryClass

    constructor(kind: RepositoryClass)
      ensures this.kind == kind
    {
      this.kind := kind;
    }
  }

  /** The module-level `_repositories` dictionary. */
  class Registry {
    var instances: map<RepositoryClass, Repository>

    /** Every stored instance was built from the class it is stored under. */
    ghost predicate Valid()
      reads this
    {
      forall c :: c in instances ==> instances[c].kind == c
    }

    /** The registry starts empty. */
    constructor()
      ensures instances == map[]
      ensures Valid()
    {
      instances := map[];
    }

    /** `get_repository(repo_class)`: the stored instance if there is one;
        otherwise a new instance, stored under its class. No other entry is
        added, replaced or removed. */
    method GetRepository(c: RepositoryClass) returns (r: Repository)
      requires Valid()
      modifies this
      ensures Valid()
      ensures r.kind == c
      ensures c in instances && instances[c] == r
      ensures c in old(instances) ==> r == old(instances)[c] && instances == old(instances)
      ensures c !in old(instances) ==> fresh(r) && instances == old(instances)[c := r]
      ensures forall d :: d in old(instances) ==> d in instances && instances[d] == old(instances)[d]
    {
      if c !in instances {
        var made := new Repository(c);
        instances := instances[c := made];
      }
      r := instances[c];
    }

    /** `get_company_repository`. */
    method GetCompanyRepository() returns (r: Repository)
      requires Valid()
      modifies this
      ensures Valid() && r.kind == CompanyRepo && CompanyRepo in instances && instances[CompanyRepo] == r
      ensures CompanyRepo in old(instances) ==> r == old(instances)[CompanyRepo] && instances == old(instances)
      ensures CompanyRepo !in old(instances) ==> fresh(r) && instances == old(instances)[CompanyRepo := r]
    {
      r := GetRepository(CompanyRepo);
    }

    /** `get_announcement_repository`. */
    method GetAnnouncementRepository() returns (r: Repository)
      requires Valid()
      modifies this
      ensures Valid() && r.kind == AnnouncementRepo && AnnouncementRepo in instances && instances[AnnouncementRepo] == r
      ensures AnnouncementRepo in old(instances) ==> r == old(instances)[AnnouncementRepo] && instances == old(instances)
      ensures AnnouncementRepo !in old(instances) ==> fresh(r) && instances == old(instances)[AnnouncementRepo := r]
    {
      r := GetRepository(AnnouncementRepo);
    }

    /** `get_price_data_repository`. */
    method GetPriceDataRepository() returns (r: Repository)
      requires Valid()
      modifies this
      ensures Valid() && r.kind == PriceDataRepo && PriceDataRepo in instances && instances[PriceDataRepo] == r
      ensures PriceDataRepo in old(instances) ==> r == old(instances)[PriceDataRepo] && instances == old(instances)
      ensures PriceDataRepo !in old(instances) ==> fresh(r) && instances == old(instances)[PriceDataRepo := r]
    {
      r := GetRepository(PriceDataRepo);
    }

    /** `get_fundamental_data_repository`. */
    method GetFundamentalDataRepository() returns (r: Repository)
      requires Valid()
      modifies this
      ensures Valid() && r.kind == FundamentalDataRepo && FundamentalDataRepo in instances && instances[FundamentalDataRepo] == r
      ensures FundamentalDataRepo in old(instances) ==> r == old(instances)[FundamentalDataRepo] && instances == old(instances)
      ensures FundamentalDataRepo !in old(instances) ==> fresh(r) && instances == old(instances)[FundamentalDataRepo := r]
    {
      r := GetRepository(FundamentalDataRepo);
    }

    /** `get_signal_repository`. */
    method GetSignalRepository() returns (r: Repository)
      requires Valid()
      modifies this
      ensures Valid() && r.kind == SignalRepo && SignalRepo in instances && instances[SignalRepo] == r
      ensures SignalRepo in old(instances) ==> r == old(instances)[SignalRepo] && instances == old(instances)
      ensures SignalRepo !in old(instances) ==> fresh(r) && instances == old(instances)[SignalRepo := r]
    {
      r := GetRepository(SignalRepo);
    }

    /** `get_backtest_repository`. */
    method GetBacktestRepository() returns (r: Repository)
      requires Valid()
      modifies this
      ensures Valid() && r.kind == BacktestRepo && BacktestRepo in instances && instances[BacktestRepo] == r
      ensures BacktestRepo in old(instances) ==> r == old(instances)[BacktestRepo] && instances == old(instances)
      ensures BacktestRepo !in old(instances) ==> fresh(r) && instances == old(instances)[BacktestRepo := r]
    {
      r := GetRepository(BacktestRepo);
    }
  }

  /** Two requests for the same class, in a row, hand back one instance. */
  method RequestedTwice(reg: Registry, c: RepositoryClass) returns (first: Repository, second: Repository)
    requires reg.Valid()
    modifies reg
    ensures reg.Valid()
    ensures first == second && first.kind == c
    ensures c in old(reg.instances) ==> first == old(reg.instances)[c]
  {
    first := reg.GetRepository(c);
    second := reg.GetRepository(c);
  }
}
