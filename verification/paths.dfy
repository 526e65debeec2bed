/** The file paths the gitter batch step derives for every image
    (`Experiment.batch_gitter` in pyphe/analysis.py): the data file and the
    gridded image are named after the image's file name, in their folders. */
module GitterPaths {
  import opened Text

  /** `dat_folder + '/' + image_path.split('/')[-1] + '.dat'`. */
  function DataPath(datFolder: string, imagePath: string): (p: string)
    ensures LastSegment(p, '/') == LastSegment(imagePath, '/') + ".dat"
  {
    var name := LastSegment(imagePath, '/');
    assert '/' !in name + ".dat";
    LastSegmentAfter(datFolder, name + ".dat", '/');
    assert datFolder + "/" + name + ".dat" == datFolder + ['/'] + (name + ".dat");
    datFolder + "/" + name + ".dat"
  }

  /** `grid_folder + '/gridded_' + image_path.split('/')[-1]`. */
  function GridImagePath(gridFolder: string, imagePath: string): (p: string)
    ensures LastSegment(p, '/') == "gridded_" + LastSegment(imagePath, '/')
  {
    var name := LastSegment(imagePath, '/');
    assert '/' !in "gridded_" + name;
    LastSegmentAfter(gridFolder, "gridded_" + name, '/');
    assert gridFolder + "/gridded_" + name == gridFolder + ['/'] + ("gridded_" + name);
    gridFolder + "/gridded_" + name
  }

  /** An image `dir/name` gets the data file `folder/name.dat`, whatever its
      directory. */
  lemma DataPathOfImage(datFolder: string, dir: string, name: string)
    requires '/' !in name
    ensures DataPath(datFolder, dir + "/" + name) == datFolder + "/" + name + ".dat"
    ensures DataPath(datFolder, name) == datFolder + "/" + name + ".dat"
  {
    assert dir + "/" + name == dir + ['/'] + name;
    LastSegmentAfter(dir, name, '/');
    LastSegmentNoSeparator(name, '/');
  }

  /** Two images share a data file exactly when their file names agree, so
      images with one name in different folders overwrite each other's data. */
  lemma DataPathCollides(datFolder: string, x: string, y: string)
    ensures DataPath(datFolder, x) == DataPath(datFolder, y) <==> LastSegment(x, '/') == LastSegment(y, '/')
  {
    var a := LastSegment(x, '/');
    var b := LastSegment(y, '/');
    if DataPath(datFolder, x) == DataPath(datFolder, y) {
      var pre := datFolder + "/";
      assert DataPath(datFolder, x) == pre + a + ".dat";
      assert DataPath(datFolder, y) == pre + b + ".dat";
      assert |a| == |b|;
      assert forall i :: 0 <= i < |a| ==> a[i] == (pre + a + ".dat")[|pre| + i];
      assert forall i :: 0 <= i < |b| ==> b[i] == (pre + b + ".dat")[|pre| + i];
    }
  }

  /** The same holds for the gridded images. */
  lemma GridImagePathCollides(gridFolder: string, x: string, y: string)
    ensures GridImagePath(gridFolder, x) == GridImagePath(gridFolder, y) <==> LastSegment(x, '/') == LastSegment(y, '/')
  {
    var a := LastSegment(x, '/');
    var b := LastSegment(y, '/');
    if GridImagePath(gridFolder, x) == GridImagePath(gridFolder, y) {
      var pre := gridFolder + "/gridded_";
      assert GridImagePath(gridFolder, x) == pre + a;
      assert GridImagePath(gridFolder, y) == pre + b;
      assert a == (pre + a)[|pre|..];
      assert b == (pre + b)[|pre|..];
    }
  }
}
