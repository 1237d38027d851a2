/** In-memory shape of an HDF5 container: named datasets whose leading
    dimension is the record index. A record's value in one dataset is the
    raw byte buffer numpy hands to sha256 and compares element-wise. */
module Containers {

  type Bytes = seq<bv8>

  /** One dataset: record i is `field[i]`; `|field|` is its leading dimension. */
  type Field = seq<Bytes>

  /** An opened HDF5 file: `order` is the iteration order of `file.keys()`. */
  datatype Hdf5File = Hdf5File(order: seq<string>, fields: map<string, Field>)
  {
    /** What h5py guarantees of a file: each key listed once, and exactly the datasets present. */
    ghost predicate Valid() {
      && Distinct(order)
      && (forall k :: k in fields <==> k in order)
    }
  }

  /** The dict built by retrieve_datasets_from_hdf5_file: `order` is its
      insertion order, which is the order `for key in datasets` visits. */
  datatype Datasets = Datasets(order: seq<string>, data: map<string, Field>)
  {
    ghost predicate Valid() {
      && Distinct(order)
      && (forall k :: k in data <==> k in order)
    }

    /** Every listed dataset has at least `n` records, so `data[k][i]` exists for i < n. */
    ghost predicate Covers(n: nat) {
      forall k :: k in data ==> n <= |data[k]|
    }
  }

  predicate Distinct<T(==)>(s: seq<T>) {
    forall i, j :: 0 <= i < j < |s| ==> s[i] != s[j]
  }

  /** Records i of `a` and j of `b` agree on every key of `keys`: np.array_equal on each key. */
  predicate RecordsEqual(keys: seq<string>, a: map<string, Field>, i: nat,
                              b: map<string, Field>, j: nat)
  {
    forall k :: k in keys ==>
      k in a && k in b && i < |a[k]| && j < |b[k]| && a[k][i] == b[k][j]
  }
}
